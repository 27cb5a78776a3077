/** src/kernel/sched.c: the runqueues of all CPUs, as steps that each hold scheduler_lock. */
module Scheduler {
  import opened Lists

  const NR_CPUS: nat := 8
  const DEF_COUNTER: nat := 10

  datatype TaskState = Running | Interruptible | Uninterruptible | Stopped | Zombie

  /** task_struct: pending says that signal_pending would hold. */
  datatype Task = Task(state: TaskState, cpu: nat, counter: nat, pending: bool, allowed: set<nat>)

  /** rq holds the runqueues, current the running task of each CPU, list the tasks in for_each_task order. */
  datatype State = State(tasks: map<nat, Task>, rq: seq<seq<nat>>, current: seq<nat>, idle: seq<nat>, list: seq<nat>)

  // Runqueues.

  predicate OnRunqueue(rq: seq<seq<nat>>, p: nat) { exists c :: 0 <= c < |rq| && p in rq[c] }

  function Enqueue(rq: seq<seq<nat>>, c: nat, p: nat): seq<seq<nat>>
  {
    if c < |rq| then rq[c := rq[c] + [p]] else rq
  }

  function Dequeue(rq: seq<seq<nat>>, c: nat, p: nat): seq<seq<nat>>
  {
    if c < |rq| then rq[c := Remove(rq[c], p)] else rq
  }

  // The sections under scheduler_lock, as functions.

  function SetState(s: State, p: nat, st: TaskState): State
  {
    if p in s.tasks then s.(tasks := s.tasks[p := s.tasks[p].(state := st)]) else s
  }

  /** wake_up_process: runnable, and linked on the CPU it last ran on unless it is linked already. */
  function WakeUp(s: State, p: nat): State
  {
    if p !in s.tasks then s
    else if OnRunqueue(s.rq, p) then SetState(s, p, Running)
    else SetState(s, p, Running).(rq := Enqueue(s.rq, s.tasks[p].cpu, p))
  }

  /** select_task_cpu among the CPUs before c: the first shortest allowed queue of at most NR_CPUS tasks, or -1. */
  function BestBelow(rq: seq<seq<nat>>, allowed: set<nat>, c: nat): int
    requires c <= |rq|
    ensures -1 <= BestBelow(rq, allowed, c) < c
  {
    if c == 0 then -1
    else
      var best := BestBelow(rq, allowed, c - 1);
      var best_len := if best < 0 then NR_CPUS + 1 else |rq[best]|;
      if c - 1 in allowed && |rq[c - 1]| < best_len then c - 1 else best
  }

  /** The CPUs t may run on, of n; CPU 0 when it names none of them. */
  function Allowed(t: Task, n: nat): set<nat>
  {
    var a := set c | c in t.allowed && c < n;
    if a == {} then {0} else a
  }

  function SelectCpu(s: State, p: nat): nat
    requires p in s.tasks
  {
    var best := BestBelow(s.rq, Allowed(s.tasks[p], |s.rq|), |s.rq|);
    if best < 0 then s.tasks[p].cpu else best
  }

  /** Among the allowed CPUs with at most NR_CPUS queued tasks the chosen one has the shortest queue; else p stays. */
  lemma {:induction false} BestIsShortest(rq: seq<seq<nat>>, allowed: set<nat>, c: nat)
    requires c <= |rq|
    ensures var best := BestBelow(rq, allowed, c);
      && (best >= 0 <==> exists d :: 0 <= d < c && d in allowed && |rq[d]| <= NR_CPUS)
      && (best >= 0 ==> best in allowed && |rq[best]| <= NR_CPUS && forall d :: 0 <= d < c && d in allowed ==>
        |rq[best]| <= |rq[d]|)
  {
    if c > 0 {
      BestIsShortest(rq, allowed, c - 1);
      if BestBelow(rq, allowed, c) >= 0 {
        assert BestBelow(rq, allowed, c) in allowed;
      }
    }
  }

  /** The first check of schedule: an outgoing sleeper with a signal stays, another leaves its queue. */
  function Outgoing(s: State, c: nat): State
    requires c < |s.current| && c < |s.idle|
  {
    var p := s.current[c];
    if p !in s.tasks || p == s.idle[c] || s.tasks[p].state == Running then s
    else if s.tasks[p].state == Interruptible && s.tasks[p].pending then SetState(s, p, Running)
    else if OnRunqueue(s.rq, p) then s.(rq := Dequeue(s.rq, s.tasks[p].cpu, p))
    else s
  }

  /** One task in the signal scan: a sleeper with a signal runs again, on a CPU chosen for it when it is not linked. */
  function ScanOne(s: State, cur: nat, p: nat): State
  {
    if p == cur || p !in s.tasks || s.tasks[p].state != Interruptible || !s.tasks[p].pending then s
    else if OnRunqueue(s.rq, p) then SetState(s, p, Running)
    else
      var target := SelectCpu(s, p);
      s.(tasks := s.tasks[p := s.tasks[p].(state := Running, cpu := target)], rq := Enqueue(s.rq, target, p))
  }

  function Scan(s: State, cur: nat, list: seq<nat>): State
  {
    if list == [] then s else ScanOne(Scan(s, cur, list[..|list| - 1]), cur, list[|list| - 1])
  }

  /** The second check: a signal that arrived for the outgoing task meanwhile keeps it on this CPU. */
  function Recheck(s: State, c: nat, late: bool): State
    requires c < |s.current|
  {
    var p := s.current[c];
    if p !in s.tasks then s
    else
      var s' := s.(tasks := s.tasks[p := s.tasks[p].(pending := s.tasks[p].pending || late)]);
      if s'.tasks[p].state == Interruptible && s'.tasks[p].pending then
        if OnRunqueue(s'.rq, p) then SetState(s', p, Running)
        else SetState(s', p, Running).(rq := Enqueue(s'.rq, c, p))
      else s'
  }

  function CounterOf(tasks: map<nat, Task>, p: nat): nat { if p in tasks then tasks[p].counter else 0 }

  /** The first task of q with the largest counter, or idle. */
  function Pick(tasks: map<nat, Task>, q: seq<nat>, idle: nat): (nat, int)
  {
    if q == [] then (idle, -100)
    else
      var (p, c) := Pick(tasks, q[..|q| - 1], idle);
      var last := q[|q| - 1];
      if CounterOf(tasks, last) > c then (last, CounterOf(tasks, last)) else (p, c)
  }

  /** New time slices for every task of the list. */
  function Recharged(tasks: map<nat, Task>, list: seq<nat>): map<nat, Task>
  {
    map p | p in tasks :: if p in list then tasks[p].(counter := DEF_COUNTER) else tasks[p]
  }

  function Choose(s: State, c: nat): State
    requires c < |s.current| && c < |s.idle| && c < |s.rq|
  {
    var (next, counter) := Pick(s.tasks, s.rq[c], s.idle[c]);
    s.(tasks := if counter == 0 then Recharged(s.tasks, s.list) else s.tasks, current := s.current[c := next])
  }

  predicate Sized(s: State) { |s.current| == |s.rq| == |s.idle| }

  lemma {:induction false} ScanSized(s: State, cur: nat, list: seq<nat>)
    ensures |Scan(s, cur, list).rq| == |s.rq| && Scan(s, cur, list).current == s.current
    ensures Scan(s, cur, list).idle == s.idle && Scan(s, cur, list).list == s.list
  {
    if list != [] { ScanSized(s, cur, list[..|list| - 1]); }
  }

  /** schedule() on CPU c. */
  function Schedule(s: State, c: nat, late: bool): State
    requires Sized(s) && c < |s.rq|
  {
    var s1 := Outgoing(s, c);
    var s2 := Scan(s1, s.current[c], s.list);
    ScanSized(s1, s.current[c], s.list);
    Choose(Recheck(s2, c, late), c)
  }

  // The invariant.

  /** Queues hold tasks of their own CPU, each once, and no idle task. */
  ghost predicate Placed(s: State) {
    && (forall c, p :: 0 <= c < |s.rq| && p in s.rq[c] ==> p in s.tasks && s.tasks[p].cpu == c && p !in s.idle)
    && (forall c :: 0 <= c < |s.rq| ==> NoDup(s.rq[c]))
    && (forall p :: p in s.tasks ==> s.tasks[p].cpu < |s.rq|)
  }

  /** Every CPU has its own idle task, always runnable and in no list. */
  ghost predicate IdleOk(s: State) {
    && (forall c :: 0 <= c < |s.idle| ==>
      s.idle[c] in s.tasks && s.tasks[s.idle[c]].cpu == c && s.tasks[s.idle[c]].state == Running)
    && (forall p :: p in s.list <==> p in s.tasks && p !in s.idle)
  }

  /** Every runnable task is linked. */
  ghost predicate RunnableLinked(s: State) {
    forall p :: p in s.tasks && s.tasks[p].state == Running && p !in s.idle ==> OnRunqueue(s.rq, p)
  }

  /** The current task of c is its idle task or on its queue, which holds no other sleeper. */
  ghost predicate CpuOk(s: State, c: nat)
    requires c < |s.rq| && c < |s.current| && c < |s.idle|
  {
    && (s.current[c] == s.idle[c] || s.current[c] in s.rq[c])
    && (forall p :: p in s.rq[c] && p in s.tasks && s.tasks[p].state != Running ==> p == s.current[c])
  }

  ghost predicate Core(s: State) { Sized(s) && Placed(s) && IdleOk(s) && RunnableLinked(s) }

  ghost predicate Inv(s: State) { Core(s) && forall c :: 0 <= c < |s.rq| ==> CpuOk(s, c) }

  /** While c schedules: the other CPUs are as they should be and the queue of c holds runnable tasks only. */
  ghost predicate Between(s: State, c: nat) {
    && Core(s) && c < |s.rq| && (forall d :: 0 <= d < |s.rq| && d != c ==> CpuOk(s, d))
    && (forall p :: p in s.rq[c] && p in s.tasks ==> s.tasks[p].state == Running)
    && s.current[c] in s.tasks && s.tasks[s.current[c]].cpu == c
      && (s.current[c] in s.idle ==> s.current[c] == s.idle[c])
  }

  /** No task runs on two CPUs. */
  lemma CurrentOnce(s: State, c: nat, d: nat)
    requires Inv(s) && c < |s.rq| && d < |s.rq| && s.current[c] == s.current[d]
    ensures c == d
  {
    assert CpuOk(s, c) && CpuOk(s, d);
  }

  // Each section keeps the invariant.

  lemma EnqueueLinks(rq: seq<seq<nat>>, c: nat, p: nat)
    requires c < |rq|
    ensures forall q :: OnRunqueue(Enqueue(rq, c, p), q) <==> OnRunqueue(rq, q) || q == p
  {
    var rq' := Enqueue(rq, c, p);
    forall q | OnRunqueue(rq, q) || q == p ensures OnRunqueue(rq', q) {
      if q == p {
        assert p in rq'[c];
      } else {
        var d :| 0 <= d < |rq| && q in rq[d];
        assert q in rq'[d];
      }
    }
  }

  /** A task that is not linked may join a queue once it is runnable there. */
  lemma EnqueuePlaced(s: State, p: nat, t: Task)
    requires Core(s) && p in s.tasks && p !in s.idle && !OnRunqueue(s.rq, p) && t.cpu < |s.rq|
    ensures Core(s.(tasks := s.tasks[p := t], rq := Enqueue(s.rq, t.cpu, p)))
  {
    EnqueueLinks(s.rq, t.cpu, p);
    Appended(s.rq[t.cpu], p);
    hide OnRunqueue, NoDup;
  }

  lemma CpuKept(s: State, p: nat, t: Task, d: nat)
    requires Core(s) && p in s.tasks && !OnRunqueue(s.rq, p) && t.cpu < |s.rq| && t.state == Running && d < |s.rq|
      && CpuOk(s, d)
    ensures CpuOk(s.(tasks := s.tasks[p := t], rq := Enqueue(s.rq, t.cpu, p)), d)
  {
  }

  lemma RunnableCore(s: State, p: nat)
    requires Core(s) && p in s.tasks && OnRunqueue(s.rq, p)
    ensures Core(SetState(s, p, Running))
  {
    hide OnRunqueue, NoDup;
  }

  function SetTask(s: State, p: nat, t: Task): State { s.(tasks := s.tasks[p := t]) }

  lemma TaskCore(s: State, p: nat, t: Task)
    requires Core(s) && p in s.tasks && t.cpu == s.tasks[p].cpu
    requires t.state == Running ==> p in s.idle || OnRunqueue(s.rq, p)
    requires p in s.idle ==> t.state == Running
    ensures Core(SetTask(s, p, t))
  {
    hide OnRunqueue, NoDup;
  }

  lemma WakeUpKeeps(s: State, p: nat)
    requires Inv(s) && p in s.tasks && p !in s.idle
    ensures Inv(WakeUp(s, p)) && WakeUp(s, p).tasks[p].state == Running && OnRunqueue(WakeUp(s, p).rq, p)
    ensures s.tasks[p].cpu < |s.rq| && WakeUp(s, p).tasks[p].cpu == s.tasks[p].cpu
    ensures var c := s.tasks[p].cpu; WakeUp(s, p).rq == if p in s.rq[c] then s.rq else s.rq[c := s.rq[c] + [p]]
  {
    if OnRunqueue(s.rq, p) {
      RunnableCore(s, p);
      forall d | 0 <= d < |s.rq| ensures CpuOk(WakeUp(s, p), d) { assert CpuOk(s, d); }
    } else {
      var t := s.tasks[p].(state := Running);
      EnqueuePlaced(s, p, t);
      forall d | 0 <= d < |s.rq| ensures CpuOk(WakeUp(s, p), d) { CpuKept(s, p, t, d); }
      EnqueueLinks(s.rq, t.cpu, p);
    }
  }

  /** A task may change on its CPU when it is runnable or is that CPU's current one. */
  lemma TaskKeeps(s: State, p: nat, t: Task)
    requires Inv(s) && p in s.tasks && t.cpu == s.tasks[p].cpu
    requires t.state == Running ==> p in s.idle || OnRunqueue(s.rq, p)
    requires p in s.idle ==> t.state == Running
    requires t.state != Running && OnRunqueue(s.rq, p) ==> p == s.current[t.cpu]
    ensures Inv(SetTask(s, p, t))
  {
    TaskCore(s, p, t);
    assert forall d :: 0 <= d < |s.rq| && p in s.rq[d] ==> d == t.cpu;
    hide Core;
    assert |s.current| == |s.rq| == |s.idle|;
    forall d | 0 <= d < |s.rq| ensures CpuOk(SetTask(s, p, t), d) { assert CpuOk(s, d); }
  }

  /** A current task that sets a sleep state stays on its queue until it calls schedule. */
  lemma SleepKeeps(s: State, c: nat, st: TaskState)
    requires Inv(s) && c < |s.rq| && s.current[c] != s.idle[c]
    ensures Inv(SetState(s, s.current[c], st))
  {
    assert CpuOk(s, c);
    assert s.current[c] in s.rq[c];
    TaskKeeps(s, s.current[c], s.tasks[s.current[c]].(state := st));
  }

  lemma DequeueLinks(s: State, c: nat, p: nat)
    requires Placed(s) && c < |s.rq| && p in s.rq[c]
    ensures forall q :: OnRunqueue(Dequeue(s.rq, c, p), q) <==> OnRunqueue(s.rq, q) && q != p
    ensures NoDup(Dequeue(s.rq, c, p)[c]) && forall x :: x in Dequeue(s.rq, c, p)[c] <==> x in s.rq[c] && x != p
  {
    Removed(s.rq[c], p);
    var rq' := Dequeue(s.rq, c, p);
    forall q | OnRunqueue(s.rq, q) && q != p ensures OnRunqueue(rq', q) {
      var d :| 0 <= d < |s.rq| && q in s.rq[d];
      assert q in rq'[d];
    }
    forall q | OnRunqueue(rq', q) ensures OnRunqueue(s.rq, q) && q != p {
      var d :| 0 <= d < |rq'| && q in rq'[d];
      assert s.tasks[p].cpu == c;
      if d != c { assert q in s.rq[d] && s.tasks[q].cpu == d; }
    }
  }

  lemma OutgoingKeeps(s: State, c: nat)
    requires Inv(s) && c < |s.rq|
    ensures Between(Outgoing(s, c), c) && Outgoing(s, c).current == s.current && Outgoing(s, c).list == s.list
  {
    var p := s.current[c];
    assert CpuOk(s, c);
    forall d | 0 <= d < |s.rq| && d != c ensures CpuOk(Outgoing(s, c), d) { assert CpuOk(s, d); }
    if p == s.idle[c] || s.tasks[p].state == Running {
      assert Outgoing(s, c) == s;
    } else if s.tasks[p].state == Interruptible && s.tasks[p].pending {
      assert OnRunqueue(s.rq, p);
      RunnableCore(s, p);
    } else {
      assert OnRunqueue(s.rq, p);
      DequeueLinks(s, c, p);
      DequeuedCore(s, c, p);
    }
  }

  lemma DequeuedCore(s: State, c: nat, p: nat)
    requires Core(s) && c < |s.rq| && p in s.rq[c] && s.tasks[p].state != Running
    ensures Core(s.(rq := Dequeue(s.rq, c, p)))
  {
    DequeueLinks(s, c, p);
    hide OnRunqueue, NoDup;
  }

  /** The scan leaves the tasks that other CPUs run where they are: they are linked. */
  lemma ScanOneKeeps(s: State, c: nat, p: nat)
    requires Between(s, c) && p in s.list
    ensures Between(ScanOne(s, s.current[c], p), c)
  {
    var s' := ScanOne(s, s.current[c], p);
    if p == s.current[c] || s.tasks[p].state != Interruptible || !s.tasks[p].pending {
      assert s' == s;
    } else if OnRunqueue(s.rq, p) {
      RunnableCore(s, p);
      forall d | 0 <= d < |s.rq| && d != c ensures CpuOk(s', d) { assert CpuOk(s, d); }
    } else {
      var t := s.tasks[p].(state := Running, cpu := SelectCpu(s, p));
      EnqueuePlaced(s, p, t);
      forall d | 0 <= d < |s.rq| && d != c ensures CpuOk(s', d) { CpuKept(s, p, t, d); }
    }
  }

  lemma {:induction false} ScanKeeps(s: State, c: nat, list: seq<nat>)
    requires Between(s, c) && forall p :: p in list ==> p in s.list
    ensures Between(Scan(s, s.current[c], list), c)
  {
    ScanSized(s, s.current[c], list);
    if list != [] {
      ScanSized(s, s.current[c], list[..|list| - 1]);
      ScanKeeps(s, c, list[..|list| - 1]);
      ScanOneKeeps(Scan(s, s.current[c], list[..|list| - 1]), c, list[|list| - 1]);
    }
  }

  lemma RecheckKeeps(s: State, c: nat, late: bool)
    requires Between(s, c)
    ensures Between(Recheck(s, c, late), c)
  {
    var p := s.current[c];
    var t := s.tasks[p].(pending := s.tasks[p].pending || late);
    BetweenSame(s, c, t);
    assert t.state != Running ==> !OnRunqueue(s.rq, p) && p !in s.idle;
    hide Between, OnRunqueue;
    if t.state == Interruptible && t.pending { RelinkKeeps(SetTask(s, p, t), c); }
  }

  lemma BetweenSame(s: State, c: nat, t: Task)
    requires Between(s, c) && t.state == s.tasks[s.current[c]].state && t.cpu == c
    ensures Between(SetTask(s, s.current[c], t), c)
  {
    TaskCore(s, s.current[c], t);
    hide Core;
    assert |s.current| == |s.rq| == |s.idle|;
    forall d | 0 <= d < |s.rq| && d != c ensures CpuOk(SetTask(s, s.current[c], t), d) { assert CpuOk(s, d); }
  }

  /** The outgoing task, not linked any more, goes back to its own queue. */
  lemma RelinkKeeps(s: State, c: nat)
    requires Between(s, c) && !OnRunqueue(s.rq, s.current[c]) && s.current[c] !in s.idle
    ensures Between(SetState(s, s.current[c], Running).(rq := Enqueue(s.rq, c, s.current[c])), c)
  {
    var p := s.current[c];
    var t := s.tasks[p].(state := Running);
    EnqueuePlaced(s, p, t);
    var s' := s.(tasks := s.tasks[p := t], rq := Enqueue(s.rq, c, p));
    forall d | 0 <= d < |s.rq| && d != c ensures CpuOk(s', d) { CpuKept(s, p, t, d); }
    hide Core, CpuOk, OnRunqueue;
  }

  lemma {:induction false} PickIs(tasks: map<nat, Task>, q: seq<nat>, idle: nat)
    ensures var (p, c) := Pick(tasks, q, idle);
      && (q == [] ==> p == idle && c == -100)
      && (q != [] ==> p in q && c == CounterOf(tasks, p) && forall x :: x in q ==> CounterOf(tasks, x) <= c)
  {
    if q != [] {
      PickIs(tasks, q[..|q| - 1], idle);
      assert q == q[..|q| - 1] + [q[|q| - 1]];
    }
  }

  lemma ChooseKeeps(s: State, c: nat)
    requires Between(s, c)
    ensures Inv(Choose(s, c))
  {
    PickIs(s.tasks, s.rq[c], s.idle[c]);
    ChooseCore(s, c);
    var s' := Choose(s, c);
    hide Pick, Core;
    forall d | 0 <= d < |s.rq| ensures CpuOk(s', d) { if d != c { assert CpuOk(s, d); } }
  }

  lemma ChooseCore(s: State, c: nat)
    requires Core(s) && c < |s.rq|
    ensures Core(Choose(s, c))
  {
    hide Pick, NoDup, OnRunqueue;
  }

  lemma ScheduleKeeps(s: State, c: nat, late: bool)
    requires Inv(s) && c < |s.rq|
    ensures Inv(Schedule(s, c, late))
  {
    var s1 := Outgoing(s, c);
    OutgoingKeeps(s, c);
    ScanKeeps(s1, c, s1.list);
    ScanSized(s1, s1.current[c], s1.list);
    var s2 := Scan(s1, s1.current[c], s1.list);
    RecheckKeeps(s2, c, late);
    ChooseKeeps(Recheck(s2, c, late), c);
    hide Inv, Between, Outgoing, Recheck, Choose, Scan;
  }

  /** schedule leaves CPU c to a runnable task of its queue with the largest time slice, or to idle if there is none. */
  lemma ScheduleChooses(s: State, c: nat, late: bool)
    requires Inv(s) && c < |s.rq|
    ensures var s' := Schedule(s, c, late);
      && Sized(s') && |s'.rq| == |s.rq| && s'.current[c] in s'.tasks && s'.tasks[s'.current[c]].state == Running
      && (s'.current[c] == s'.idle[c] <==> s'.rq[c] == [])
      && (forall p :: p in s'.rq[c] ==> p in s'.tasks && s'.tasks[p].state == Running)
      && (forall p :: p in s'.rq[c] ==> s'.tasks[p].counter <= s'.tasks[s'.current[c]].counter)
      && (s'.rq[c] != [] ==> s'.tasks[s'.current[c]].counter > 0)
  {
    var s1 := Outgoing(s, c);
    OutgoingKeeps(s, c);
    ScanKeeps(s1, c, s1.list);
    ScanSized(s1, s1.current[c], s1.list);
    var s2 := Scan(s1, s1.current[c], s1.list);
    RecheckKeeps(s2, c, late);
    hide Inv, Outgoing, Scan;
    Chosen(Recheck(s2, c, late), c);
  }

  lemma Chosen(s: State, c: nat)
    requires Between(s, c)
    ensures var s' := Choose(s, c);
      && s'.current[c] in s'.tasks && s'.tasks[s'.current[c]].state == Running
      && (s'.current[c] == s'.idle[c] <==> s'.rq[c] == [])
      && (forall p :: p in s'.rq[c] ==> p in s'.tasks && s'.tasks[p].state == Running)
      && (forall p :: p in s'.rq[c] ==> s'.tasks[p].counter <= s'.tasks[s'.current[c]].counter)
      && (s'.rq[c] != [] ==> s'.tasks[s'.current[c]].counter > 0)
  {
    PickIs(s.tasks, s.rq[c], s.idle[c]);
    hide Pick;
  }

  // Runs.

  datatype Act =
    | Wake(p: nat)                          // wake_up_process(p)
    | Sleep(c: nat, state: TaskState)       // the current task of c sets its state
    | Sched(c: nat, late: bool)             // schedule() on c; late: a signal arrives for its task meanwhile
    | Fork(c: nat, p: nat)                  // the current task of c creates p
    | Pend(p: nat, pending: bool)           // signals of p arrive or are taken
    | Tick(c: nat)                          // a timer interrupt on c
    | Reap(p: nat)                          // a parked zombie is freed

  predicate Enabled(s: State, a: Act) {
    Sized(s) &&
    match a
    case Wake(p) => p in s.tasks && p !in s.idle
    case Sleep(c, st) => c < |s.rq| && s.current[c] != s.idle[c] && st != Running
    case Sched(c, _) => c < |s.rq|
    case Fork(c, p) => c < |s.rq| && s.current[c] in s.tasks && p !in s.tasks
    case Pend(p, _) => p in s.tasks
    case Tick(c) => c < |s.rq| && s.current[c] in s.tasks
    case Reap(p) => p in s.tasks && s.tasks[p].state == Zombie && !OnRunqueue(s.rq, p) && p !in s.current
  }

  function Next(s: State, a: Act): State
    requires Enabled(s, a)
  {
    match a
    case Wake(p) => WakeUp(s, p)
    case Sleep(c, st) => SetState(s, s.current[c], st)
    case Sched(c, late) => Schedule(s, c, late)
    case Fork(c, p) => Forked(s, s.current[c], p)
    case Pend(p, b) => SetTask(s, p, s.tasks[p].(pending := b))
    case Tick(c) =>
      var cur := s.tasks[s.current[c]];
      SetTask(s, s.current[c], cur.(counter := if cur.counter > 0 then cur.counter - 1 else 0))
    case Reap(p) => s.(tasks := s.tasks - {p}, list := Without(s.list, p))
  }

  /** do_fork by cur, up to SET_LINKS: parent and child share the time slice. */
  function Forked(s: State, cur: nat, p: nat): State
    requires cur in s.tasks
  {
    var t := s.tasks[cur];
    var child := Task(Uninterruptible, t.cpu, (t.counter + 1) / 2, false, AllCpus(|s.rq|));
    s.(tasks := s.tasks[cur := t.(counter := t.counter / 2)][p := child], list := s.list + [p])
  }

  /** online_cpu_mask() */
  function AllCpus(n: nat): set<nat> { if n == 0 then {} else AllCpus(n - 1) + {n - 1} }

  function Without(q: seq<nat>, p: nat): (r: seq<nat>)
    ensures forall x :: x in r <==> x in q && x != p
  {
    if q == [] then [] else (if q[0] == p then [] else [q[0]]) + Without(q[1..], p)
  }

  lemma SameTaskKeeps(s: State, p: nat, t: Task)
    requires Inv(s) && p in s.tasks && t.state == s.tasks[p].state && t.cpu == s.tasks[p].cpu
    ensures Inv(SetTask(s, p, t))
  {
    if t.state != Running && OnRunqueue(s.rq, p) {
      var d :| 0 <= d < |s.rq| && p in s.rq[d];
      assert CpuOk(s, d);
    }
    TaskKeeps(s, p, t);
  }

  lemma ForkKeeps(s: State, p: nat, child: Task)
    requires Inv(s) && p !in s.tasks && child.state == Uninterruptible && child.cpu < |s.rq|
    ensures Inv(s.(tasks := s.tasks[p := child], list := s.list + [p]))
  {
    var s' := s.(tasks := s.tasks[p := child], list := s.list + [p]);
    assert Core(s') by { hide CpuOk, NoDup, OnRunqueue; }
    assert forall c :: 0 <= c < |s.rq| ==> p !in s.rq[c];
    hide Core;
    assert |s.current| == |s.rq| == |s.idle|;
    forall d | 0 <= d < |s.rq| ensures CpuOk(s', d) { assert CpuOk(s, d); }
  }

  lemma WithoutIs(q: seq<nat>, p: nat, tasks: map<nat, Task>, idle: seq<nat>)
    requires forall x :: x in q <==> x in tasks && x !in idle
    ensures forall x :: x in Without(q, p) <==> x in tasks - {p} && x !in idle
  {
    hide Without;
  }

  lemma ReapPlaced(s: State, p: nat)
    requires Placed(s) && p in s.tasks && !OnRunqueue(s.rq, p)
    ensures Placed(s.(tasks := s.tasks - {p}, list := Without(s.list, p)))
  {
    assert forall c :: 0 <= c < |s.rq| ==> p !in s.rq[c];
    hide NoDup, OnRunqueue, Without;
  }

  lemma ReapCore(s: State, p: nat)
    requires Core(s) && p in s.tasks && s.tasks[p].state == Zombie && !OnRunqueue(s.rq, p)
    ensures Core(s.(tasks := s.tasks - {p}, list := Without(s.list, p)))
  {
    hide Placed, OnRunqueue, Without;
    ReapPlaced(s, p);
    WithoutIs(s.list, p, s.tasks, s.idle);
  }

  lemma ReapKeeps(s: State, p: nat)
    requires Inv(s) && p in s.tasks && s.tasks[p].state == Zombie && !OnRunqueue(s.rq, p) && p !in s.current
    ensures Inv(s.(tasks := s.tasks - {p}, list := Without(s.list, p)))
  {
    var s' := s.(tasks := s.tasks - {p}, list := Without(s.list, p));
    assert forall c :: 0 <= c < |s.rq| ==> p !in s.rq[c];
    ReapCore(s, p);
    hide Core, Without;
    assert |s.current| == |s.rq| == |s.idle|;
    forall d | 0 <= d < |s.rq| ensures CpuOk(s', d) { assert CpuOk(s, d); }
  }

  lemma StepKeeps(s: State, a: Act)
    requires Inv(s) && Enabled(s, a)
    ensures Inv(Next(s, a))
  {
    hide Schedule, OnRunqueue, Inv;
    match a
    case Wake(p) => WakeUpKeeps(s, p);
    case Sleep(c, st) => SleepKeeps(s, c, st);
    case Sched(c, late) => ScheduleKeeps(s, c, late);
    case Fork(c, p) => ForkedKeeps(s, s.current[c], p);
    case Pend(p, b) => SameTaskKeeps(s, p, s.tasks[p].(pending := b));
    case Tick(c) =>
      var cur := s.tasks[s.current[c]];
      SameTaskKeeps(s, s.current[c], cur.(counter := if cur.counter > 0 then cur.counter - 1 else 0));
    case Reap(p) => ReapKeeps(s, p);
  }

  lemma InRange(s: State, p: nat)
    requires Inv(s) && p in s.tasks
    ensures s.tasks[p].cpu < |s.rq|
  {
  }

  lemma ForkedKeeps(s: State, cur: nat, p: nat)
    requires Inv(s) && cur in s.tasks && p !in s.tasks
    ensures Inv(Forked(s, cur, p))
  {
    hide Inv, OnRunqueue;
    var t := s.tasks[cur];
    InRange(s, cur);
    SameTaskKeeps(s, cur, t.(counter := t.counter / 2));
    ForkKeeps(SetTask(s, cur, t.(counter := t.counter / 2)), p,
      Task(Uninterruptible, t.cpu, (t.counter + 1) / 2, false, AllCpus(|s.rq|)));
  }

  ghost predicate Reaches(s: State, acts: seq<Act>, s': State)
    decreases |acts|
  {
    if acts == [] then s' == s else Enabled(s, acts[0]) && Reaches(Next(s, acts[0]), acts[1..], s')
  }

  /** In every run no task is current on two CPUs, and each CPU runs its idle task or one of its own queue. */
  lemma {:induction false} RunKeeps(s: State, acts: seq<Act>, s': State)
    requires Inv(s) && Reaches(s, acts, s')
    ensures Inv(s') && forall c, d :: 0 <= c < |s'.rq| && 0 <= d < |s'.rq| && s'.current[c] == s'.current[d] ==> c == d
    decreases |acts|
  {
    hide Next;
    if acts != [] {
      StepKeeps(s, acts[0]);
      RunKeeps(Next(s, acts[0]), acts[1..], s');
    } else {
      forall c, d | 0 <= c < |s'.rq| && 0 <= d < |s'.rq| && s'.current[c] == s'.current[d]
        ensures c == d
      {
        CurrentOnce(s', c, d);
      }
    }
  }

  // What stays runnable.

  predicate Runs(s: State, p: nat) { p in s.tasks && s.tasks[p].state == Running }

  lemma {:induction false} ScanRuns(s: State, cur: nat, list: seq<nat>, p: nat)
    requires Runs(s, p)
    ensures Runs(Scan(s, cur, list), p)
  {
    if list != [] { ScanRuns(s, cur, list[..|list| - 1], p); }
  }

  lemma ScheduleRuns(s: State, c: nat, late: bool, p: nat)
    requires Sized(s) && c < |s.rq| && Runs(s, p)
    ensures Runs(Schedule(s, c, late), p)
  {
    hide Scan, Recheck, Choose, Outgoing;
    var s1 := Outgoing(s, c);
    OutgoingRuns(s, c, p);
    ScanSized(s1, s.current[c], s.list);
    ScanRuns(s1, s.current[c], s.list, p);
    RestRuns(Scan(s1, s.current[c], s.list), c, late, p);
  }

  lemma OutgoingRuns(s: State, c: nat, p: nat)
    requires Sized(s) && c < |s.rq| && p in s.tasks
    ensures Sized(Outgoing(s, c)) && |Outgoing(s, c).rq| == |s.rq| && Outgoing(s, c).idle == s.idle
      && Outgoing(s, c).current == s.current
    ensures p in Outgoing(s, c).tasks && (Runs(s, p) ==> Runs(Outgoing(s, c), p))
    ensures p != s.current[c] ==> Outgoing(s, c).tasks[p] == s.tasks[p]
    ensures p == s.current[c] != s.idle[c] && s.tasks[p].state == Interruptible && s.tasks[p].pending ==>
      Runs(Outgoing(s, c), p)
  {
    hide Remove, OnRunqueue;
  }

  lemma RestRuns(s: State, c: nat, late: bool, p: nat)
    requires Sized(s) && c < |s.rq| && Runs(s, p)
    ensures Sized(Recheck(s, c, late)) && c < |Recheck(s, c, late).rq| && Runs(Choose(Recheck(s, c, late), c), p)
  {
    hide Pick, OnRunqueue;
  }

  /** The step is the task's own decision to sleep. */
  predicate SleepsItself(s: State, a: Act, p: nat) { a.Sleep? && a.c < |s.current| && s.current[a.c] == p }

  lemma StepRuns(s: State, a: Act, p: nat)
    requires Enabled(s, a) && Runs(s, p) && !SleepsItself(s, a, p)
    ensures Runs(Next(s, a), p)
  {
    hide Schedule, OnRunqueue;
    if a.Sched? { ScheduleRuns(s, a.c, a.late, p); }
  }

  /** A run in which p never decides to sleep. */
  ghost predicate Awake(s: State, acts: seq<Act>, p: nat)
    decreases |acts|
  {
    acts == [] || (Enabled(s, acts[0]) && !SleepsItself(s, acts[0], p) && Awake(Next(s, acts[0]), acts[1..], p))
  }

  /** A runnable task stays runnable and linked until it sleeps by its own decision. */
  lemma {:induction false} StaysRunnable(s: State, acts: seq<Act>, s': State, p: nat)
    requires Inv(s) && Reaches(s, acts, s') && Awake(s, acts, p) && Runs(s, p) && p !in s.idle
    ensures Runs(s', p) && (p !in s'.idle ==> OnRunqueue(s'.rq, p))
    decreases |acts|
  {
    hide Next;
    if acts != [] {
      StepKeeps(s, acts[0]);
      StepRuns(s, acts[0], p);
      IdleFixed(s, acts[0]);
      StaysRunnable(Next(s, acts[0]), acts[1..], s', p);
    }
  }

  lemma IdleFixed(s: State, a: Act)
    requires Enabled(s, a)
    ensures Next(s, a).idle == s.idle
  {
    if a.Sched? { ScanSized(Outgoing(s, a.c), s.current[a.c], s.list); }
    hide Scan;
  }

  lemma {:induction false} IdleStays(s: State, acts: seq<Act>, s': State)
    requires Reaches(s, acts, s')
    ensures s'.idle == s.idle
    decreases |acts|
  {
    hide Next, Enabled;
    if acts != [] {
      IdleFixed(s, acts[0]);
      IdleStays(Next(s, acts[0]), acts[1..], s');
    }
  }

  /** A wakeup is not lost, whatever any CPU does between the setting of the sleep state and the wakeup, and whether
      that lands before or after schedule: from then on the task stays linked. The task is there at least as long as a
      CPU runs it. */
  lemma WakeupNotLost(s: State, c: nat, st: TaskState, between: seq<Act>, s1: State, acts: seq<Act>, s2: State)
    requires Inv(s) && Enabled(s, Sleep(c, st)) && Reaches(Next(s, Sleep(c, st)), between, s1)
    requires var p := s.current[c];
      && (p in s1.tasks || p in s1.current)
      && Reaches(s1, [Wake(p)] + acts, s2) && Awake(WakeUp(s1, p), acts, p)
    ensures Runs(s2, s.current[c]) && (s.current[c] !in s2.idle ==> OnRunqueue(s2.rq, s.current[c]))
  {
    var p := s.current[c];
    assert CpuOk(s, c) && p in s.rq[c];
    SleepKeeps(s, c, st);
    IdleStays(Next(s, Sleep(c, st)), between, s1);
    RunKeeps(Next(s, Sleep(c, st)), between, s1);
    assert p in s1.tasks by {
      if p in s1.current {
        var d :| 0 <= d < |s1.current| && s1.current[d] == p;
        CurrentFacts(s1, d);
      }
    }
    hide Inv, Reaches, Awake;
    WakeUpKeeps(s1, p);
    assert ([Wake(p)] + acts)[1..] == acts;
    Unfolded(s1, Wake(p), acts, s2);
    StaysRunnable(WakeUp(s1, p), acts, s2, p);
  }

  lemma Unfolded(s: State, a: Act, acts: seq<Act>, s': State)
    requires Reaches(s, [a] + acts, s')
    ensures Enabled(s, a) && Reaches(Next(s, a), acts, s')
  {
    assert ([a] + acts)[1..] == acts;
  }

  lemma {:induction false} ScanWakes(s: State, cur: nat, list: seq<nat>, p: nat)
    requires p in list && p != cur && p in s.tasks && s.tasks[p].state == Interruptible && s.tasks[p].pending
    ensures Runs(Scan(s, cur, list), p)
  {
    var init, last := list[..|list| - 1], list[|list| - 1];
    assert list == init + [last];
    if p in init { ScanWakes(s, cur, init, p); } else { ScanLeaves(s, cur, init, p); }
  }

  lemma {:induction false} ScanLeaves(s: State, cur: nat, list: seq<nat>, p: nat)
    requires p !in list && p in s.tasks
    ensures p in Scan(s, cur, list).tasks && Scan(s, cur, list).tasks[p] == s.tasks[p]
  {
    if list != [] {
      assert list == list[..|list| - 1] + [list[|list| - 1]];
      ScanLeaves(s, cur, list[..|list| - 1], p);
    }
  }

  /** After any schedule(), every interruptible sleeper with a pending signal is runnable. */
  lemma SignalsWake(s: State, c: nat, late: bool, p: nat)
    requires Inv(s) && c < |s.rq| && p in s.list && s.tasks[p].state == Interruptible && s.tasks[p].pending
    ensures Runs(Schedule(s, c, late), p)
  {
    assert p !in s.idle && s.idle[c] in s.idle && p in s.tasks && Sized(s);
    hide Inv, Scan, Recheck, Choose, Outgoing;
    var s1 := Outgoing(s, c);
    OutgoingRuns(s, c, p);
    ScanSized(s1, s.current[c], s.list);
    if p == s.current[c] {
      ScanRuns(s1, s.current[c], s.list, p);
    } else {
      ScanWakes(s1, s.current[c], s.list, p);
    }
    RestRuns(Scan(s1, s.current[c], s.list), c, late, p);
  }

  // What sleeps.

  /** p is parked: it sleeps, linked nowhere, and no signal is to wake it. */
  ghost predicate Parked(s: State, p: nat, st: TaskState) {
    && p in s.tasks && s.tasks[p].state == st != Running && !OnRunqueue(s.rq, p)
    && (st == Interruptible ==> !s.tasks[p].pending)
  }

  /** It is also no CPU's task. */
  ghost predicate Asleep(s: State, p: nat, st: TaskState) { Parked(s, p, st) && p !in s.current && p !in s.idle }

  lemma EnqueueParked(s: State, tasks: map<nat, Task>, c: nat, q: nat, p: nat, st: TaskState)
    requires Parked(s, p, st) && q != p && p in tasks && tasks[p] == s.tasks[p]
    ensures Parked(s.(tasks := tasks, rq := Enqueue(s.rq, c, q)), p, st)
  {
    if c < |s.rq| { EnqueueLinks(s.rq, c, q); }
    hide OnRunqueue;
  }

  lemma OutgoingParked(s: State, c: nat, p: nat, st: TaskState)
    requires Inv(s) && c < |s.rq| && p in s.tasks && p !in s.idle
    requires Parked(s, p, st) || (p == s.current[c] && s.tasks[p].state == st != Running)
    requires st == Interruptible ==> !s.tasks[p].pending
    ensures Parked(Outgoing(s, c), p, st)
  {
    var q := s.current[c];
    assert CpuOk(s, c);
    if q != s.idle[c] && s.tasks[q].state != Running && !(s.tasks[q].state == Interruptible && s.tasks[q].pending) {
      DequeueLinks(s, c, q);
    }
  }

  lemma ScanOneParked(s: State, cur: nat, q: nat, p: nat, st: TaskState)
    requires Parked(s, p, st)
    ensures Parked(ScanOne(s, cur, q), p, st)
  {
    if q != p && q in s.tasks {
      var target := SelectCpu(s, q);
      EnqueueParked(s, s.tasks[q := s.tasks[q].(state := Running, cpu := target)], target, q, p, st);
    }
    hide OnRunqueue, Enqueue, SelectCpu;
  }

  lemma {:induction false} ScanParked(s: State, cur: nat, list: seq<nat>, p: nat, st: TaskState)
    requires Parked(s, p, st)
    ensures Parked(Scan(s, cur, list), p, st)
  {
    if list != [] {
      ScanParked(s, cur, list[..|list| - 1], p, st);
      ScanOneParked(Scan(s, cur, list[..|list| - 1]), cur, list[|list| - 1], p, st);
    }
  }

  lemma RecheckParked(s: State, c: nat, late: bool, p: nat, st: TaskState)
    requires Parked(s, p, st) && c < |s.current| && (p == s.current[c] && st == Interruptible ==> !late)
    ensures Parked(Recheck(s, c, late), p, st)
  {
    var q := s.current[c];
    if q != p && q in s.tasks {
      var t := s.tasks[q].(pending := s.tasks[q].pending || late);
      EnqueueParked(s, s.tasks[q := t.(state := Running)], c, q, p, st);
    }
    hide OnRunqueue, Enqueue;
  }

  lemma ChooseParked(s: State, c: nat, p: nat, st: TaskState)
    requires Between(s, c) && Parked(s, p, st) && p !in s.idle
    ensures c < |Choose(s, c).current| && Parked(Choose(s, c), p, st) && Choose(s, c).current[c] != p
    ensures Choose(s, c).current == s.current[c := Choose(s, c).current[c]] && Choose(s, c).idle == s.idle
  {
    PickIs(s.tasks, s.rq[c], s.idle[c]);
    hide Pick;
  }

  /** schedule leaves a parked task alone, and parks its own task when that sleeps and no signal came. */
  lemma SchedulePark(s: State, c: nat, late: bool, p: nat, st: TaskState)
    requires Inv(s) && c < |s.rq| && p in s.tasks && p !in s.idle && (st == Interruptible ==> !s.tasks[p].pending)
    requires Asleep(s, p, st) ||
      (p == s.current[c] && s.tasks[p].state == st != Running && (st == Interruptible ==> !late))
    ensures Asleep(Schedule(s, c, late), p, st)
  {
    hide Outgoing, Scan, Recheck, Choose, Between, Parked;
    CurrentFacts(s, c);
    forall d | 0 <= d < |s.rq| && d != c ensures s.current[d] != p {
      if p == s.current[c] == s.current[d] { CurrentOnce(s, c, d); }
    }
    var s1 := Outgoing(s, c);
    OutgoingParked(s, c, p, st);
    OutgoingKeeps(s, c);
    OutgoingRuns(s, c, p);
    hide Inv;
    ScanKeeps(s1, c, s1.list);
    ScanSized(s1, s1.current[c], s1.list);
    ScanParked(s1, s1.current[c], s1.list, p, st);
    var s2 := Scan(s1, s1.current[c], s1.list);
    RecheckKeeps(s2, c, late);
    RecheckParked(s2, c, late, p, st);
    RecheckSame(s2, c, late);
    ChooseParked(Recheck(s2, c, late), c, p, st);
  }

  lemma RecheckSame(s: State, c: nat, late: bool)
    requires c < |s.current|
    ensures var s' := Recheck(s, c, late);
      && s'.current == s.current && s'.idle == s.idle && s'.list == s.list && |s'.rq| == |s.rq|
      && s'.tasks.Keys == s.tasks.Keys
      && forall q :: q in s.tasks ==> s'.tasks[q].counter == s.tasks[q].counter && s'.tasks[q].cpu == s.tasks[q].cpu
  {
    hide OnRunqueue;
  }

  /** A task that set a sleep state, and has no signal to wake it, is off its CPU and off every queue after schedule. */
  lemma SleeperLeaves(s: State, c: nat, late: bool)
    requires Inv(s) && c < |s.rq| && s.current[c] != s.idle[c] && s.current[c] in s.tasks
    requires s.tasks[s.current[c]].state != Running
    requires s.tasks[s.current[c]].state == Interruptible ==> !s.tasks[s.current[c]].pending && !late
    ensures var p, s' := s.current[c], Schedule(s, c, late);
      && p in s'.tasks && s'.tasks[p].state == s.tasks[p].state && p !in s'.current
      && forall d :: 0 <= d < |s'.rq| ==> p !in s'.rq[d]
  {
    assert CpuOk(s, c);
    SchedulePark(s, c, late, s.current[c], s.tasks[s.current[c]].state);
    hide Schedule;
  }

  /** One that has such a signal, or gets it late, stays runnable. */
  lemma SignalledStays(s: State, c: nat, late: bool)
    requires Inv(s) && c < |s.rq| && s.current[c] != s.idle[c] && s.current[c] in s.tasks
    requires s.tasks[s.current[c]].state == Interruptible && (s.tasks[s.current[c]].pending || late)
    ensures Runs(Schedule(s, c, late), s.current[c])
  {
    var p := s.current[c];
    assert CpuOk(s, c) && p in s.list;
    if s.tasks[p].pending {
      SignalsWake(s, c, late, p);
    } else {
      var s1 := Outgoing(s, c);
      OutgoingParked(s, c, p, Interruptible);
      ScanSized(s1, p, s.list);
      ScanParked(s1, p, s.list, p, Interruptible);
      hide OnRunqueue, Scan, Outgoing, Pick;
    }
  }

  /** What ends the sleep of p: a wakeup, a signal when it may, or its end. */
  predicate Rouses(a: Act, p: nat, st: TaskState) {
    a == Wake(p) || a == Reap(p) || (st == Interruptible && a == Pend(p, true))
  }

  lemma StepAsleep(s: State, a: Act, p: nat, st: TaskState)
    requires Inv(s) && Enabled(s, a) && Asleep(s, p, st) && !Rouses(a, p, st)
    ensures Asleep(Next(s, a), p, st)
  {
    match a
    case Sched(c, late) => SchedulePark(s, c, late, p, st);
    case Wake(q) => EnqueueParked(s, s.tasks[q := s.tasks[q].(state := Running)], s.tasks[q].cpu, q, p, st);
    case Reap(q) => assert p != q;
    case Sleep(c, _) => assert p != s.current[c];
    case Fork(c, q) => assert p != s.current[c] && p != q;
    case Tick(c) => assert p != s.current[c];
    case Pend(q, _) =>
    hide OnRunqueue, Schedule, Enqueue, Inv;
  }

  ghost predicate Undisturbed(acts: seq<Act>, p: nat, st: TaskState) {
    forall i :: 0 <= i < |acts| ==> !Rouses(acts[i], p, st)
  }

  /** Over every run a sleeping task stays asleep, on no queue and on no CPU, until it is woken or gets a signal. */
  lemma {:induction false} StaysAsleep(s: State, acts: seq<Act>, s': State, p: nat, st: TaskState)
    requires Inv(s) && Reaches(s, acts, s') && Asleep(s, p, st) && Undisturbed(acts, p, st)
    ensures p in s'.tasks && s'.tasks[p].state == st && p !in s'.current
    ensures forall d :: 0 <= d < |s'.rq| ==> p !in s'.rq[d]
    decreases |acts|
  {
    hide Next, Inv, Enabled;
    if acts != [] {
      assert !Rouses(acts[0], p, st);
      StepKeeps(s, acts[0]);
      StepAsleep(s, acts[0], p, st);
      hide Asleep;
      StaysAsleep(Next(s, acts[0]), acts[1..], s', p, st);
    }
  }

  // Where tasks go, and their time slices.

  /** A signalled sleeper that is linked nowhere goes to the shortest of the queues it may use, if one has room. */
  lemma ScanChooses(s: State, cur: nat, p: nat)
    requires p in s.tasks && p != cur && s.tasks[p].state == Interruptible && s.tasks[p].pending && !OnRunqueue(s.rq, p)
    requires s.tasks[p].cpu < |s.rq|
    ensures var s', d := ScanOne(s, cur, p), ScanOne(s, cur, p).tasks[p].cpu;
      && d < |s'.rq| && p in s'.rq[d]
      && ((exists e :: e in s.tasks[p].allowed && e < |s.rq| && |s.rq[e]| <= NR_CPUS) ==>
            d in s.tasks[p].allowed && forall e :: e in s.tasks[p].allowed && e < |s.rq| ==> |s.rq[d]| <= |s.rq[e]|)
      && (d in s.tasks[p].allowed || d == s.tasks[p].cpu
        || (d == 0 && forall e :: e in s.tasks[p].allowed ==> e >= |s.rq|))
  {
    var t := s.tasks[p];
    BestIsShortest(s.rq, Allowed(t, |s.rq|), |s.rq|);
    AllowedIs(t, |s.rq|);
    hide BestBelow, Allowed;
  }

  lemma AllowedIs(t: Task, n: nat)
    ensures forall e :: e in Allowed(t, n) ==> e in t.allowed || (e == 0 && forall d :: d in t.allowed ==> d >= n)
    ensures forall e :: e in t.allowed && e < n ==> e in Allowed(t, n)
  {
    var a := set c | c in t.allowed && c < n;
    assert forall d :: d in t.allowed && d < n ==> d in a;
  }

  /** p moved to a CPU it may use, or to CPU 0 when it may use none that is there. */
  predicate MovedRightly(t: Task, cpu: nat, n: nat) {
    cpu == t.cpu || cpu in t.allowed || (cpu == 0 && forall e :: e in t.allowed ==> e >= n)
  }

  lemma {:induction false} ScanMoves(s: State, cur: nat, list: seq<nat>, p: nat)
    requires p in s.tasks
    ensures var t, t' := s.tasks[p], Scan(s, cur, list).tasks;
      && p in t' && t'[p].allowed == t.allowed && t'[p].counter == t.counter && MovedRightly(t, t'[p].cpu, |s.rq|)
      && (t'[p].cpu != t.cpu ==> p != cur && t.state == Interruptible && t.pending)
      && (t'[p].pending <==> t.pending) && (t'[p].state == t.state || t'[p].state == Running)
      && (t'[p].state == t.state ==> t'[p].cpu == t.cpu || t.state == Running)
  {
    if list != [] {
      var init, q := list[..|list| - 1], list[|list| - 1];
      ScanMoves(s, cur, init, p);
      var s1 := Scan(s, cur, init);
      ScanSized(s, cur, init);
      if q == p && q in s1.tasks {
        BestIsShortest(s1.rq, Allowed(s1.tasks[p], |s1.rq|), |s1.rq|);
        AllowedIs(s1.tasks[p], |s1.rq|);
      }
      hide BestBelow, Allowed, OnRunqueue, Enqueue, Scan;
      assert Scan(s, cur, list) == ScanOne(s1, cur, q);
    }
  }

  /** A task changes its CPU only in schedule, when a signal wakes it, and only to one it may use. */
  lemma Migrates(s: State, a: Act, p: nat)
    requires Inv(s) && Enabled(s, a) && p in s.tasks && p in Next(s, a).tasks
    ensures var t, t' := s.tasks[p], Next(s, a).tasks[p];
      t'.cpu != t.cpu ==>
        a.Sched? && t.state == Interruptible && t.pending && MovedRightly(t, t'.cpu, |s.rq|)
  {
    if a.Sched? { BeforeChoice(s, a.c, a.late, p); }
    hide OnRunqueue, Pick, Outgoing, Inv, MovedRightly, Scan, Recheck, Without;
  }

  /** What the part of schedule before the choice does to a task. */
  lemma BeforeChoice(s: State, c: nat, late: bool, p: nat)
    requires Inv(s) && c < |s.rq| && p in s.tasks
    ensures Sized(s) && c < |Scan(Outgoing(s, c), s.current[c], s.list).current|
    ensures var s3 := Recheck(Scan(Outgoing(s, c), s.current[c], s.list), c, late);
      && Between(s3, c) && s3.list == s.list && p in s3.tasks && s3.tasks[p].counter == s.tasks[p].counter
      && (s3.tasks[p].cpu != s.tasks[p].cpu ==>
            s.tasks[p].state == Interruptible && s.tasks[p].pending
              && MovedRightly(s.tasks[p], s3.tasks[p].cpu, |s.rq|))
      && forall q :: q in s3.tasks ==> q in s.tasks
  {
    hide Scan, Recheck, Between, MovedRightly;
    OutgoingKeeps(s, c);
    OutgoingTasks(s, c, p);
    OutgoingRuns(s, c, p);
    hide Inv, Outgoing;
    var s1 := Outgoing(s, c);
    ScanKeeps(s1, c, s1.list);
    ScanSized(s1, s1.current[c], s1.list);
    ScanMoves(s1, s1.current[c], s1.list, p);
    ScanTasks(s1, s1.current[c], s1.list);
    RecheckKeeps(Scan(s1, s1.current[c], s1.list), c, late);
    RecheckSame(Scan(s1, s1.current[c], s1.list), c, late);
  }

  lemma OutgoingTasks(s: State, c: nat, p: nat)
    requires Inv(s) && c < |s.rq| && p in s.tasks
    ensures var t, t' := s.tasks[p], Outgoing(s, c).tasks;
      && t'.Keys == s.tasks.Keys && t'[p] == t.(state := t'[p].state) && (p != s.current[c] ==> t'[p] == t)
  {
    hide OnRunqueue, Inv;
  }

  lemma {:induction false} ScanTasks(s: State, cur: nat, list: seq<nat>)
    ensures Scan(s, cur, list).tasks.Keys == s.tasks.Keys
  {
    if list != [] { ScanTasks(s, cur, list[..|list| - 1]); }
  }

  /** The time slices are renewed exactly when all tasks that the CPU could run have used theirs up. */
  lemma SlicesRenewed(s: State, c: nat, late: bool, p: nat)
    requires Inv(s) && c < |s.rq| && p in s.list
    ensures var s' := Schedule(s, c, late);
      && c < |s'.rq| && (forall q :: q in s'.rq[c] ==> q in s.tasks) && p in s.tasks && p in s'.tasks
      && s'.tasks[p].counter ==
           if s'.rq[c] != [] && forall q :: q in s'.rq[c] ==> s.tasks[q].counter == 0 then DEF_COUNTER
           else s.tasks[p].counter
  {
    hide Scan, Recheck, Outgoing;
    BeforeChoice(s, c, late, p);
    var s3 := Recheck(Scan(Outgoing(s, c), s.current[c], s.list), c, late);
    forall q | q in s3.rq[c] ensures q in s.tasks && q in s3.tasks && s3.tasks[q].counter == s.tasks[q].counter {
      assert q in s3.tasks;
      BeforeChoice(s, c, late, q);
    }
    hide Inv;
    RenewedAt(s3, c, p);
  }

  lemma RenewedAt(s: State, c: nat, p: nat)
    requires Between(s, c) && p in s.list && p in s.tasks && forall q :: q in s.rq[c] ==> q in s.tasks
    ensures var s' := Choose(s, c);
      && s'.rq == s.rq && p in s'.tasks
      && s'.tasks[p].counter ==
           if s.rq[c] != [] && forall q :: q in s.rq[c] ==> s.tasks[q].counter == 0 then DEF_COUNTER
           else s.tasks[p].counter
  {
    PickIs(s.tasks, s.rq[c], s.idle[c]);
    hide Pick;
  }

  /** A fork divides the time slice between parent and child, and leaves all others theirs. */
  lemma ForkSplitsSlice(s: State, c: nat, p: nat)
    requires Inv(s) && Enabled(s, Fork(c, p))
    ensures var s', cur := Next(s, Fork(c, p)), s.current[c];
      && s'.tasks[cur].counter + s'.tasks[p].counter == s.tasks[cur].counter
      && s'.tasks[cur].counter <= s'.tasks[p].counter <= s'.tasks[cur].counter + 1
      && s'.tasks[p].state != Running && s'.tasks[p].cpu == s.tasks[cur].cpu
      && forall q :: q in s.tasks && q != cur ==> s'.tasks[q] == s.tasks[q]
  {
  }

  // The same sections in place.

  class Cpus {
    var tasks: map<nat, Task>
    var rq: seq<seq<nat>>
    var current: seq<nat>
    var idle: seq<nat>
    var list: seq<nat>

    ghost function Now(): State
      reads this
    {
      State(tasks, rq, current, idle, list)
    }

    method TaskOnRunqueue(p: nat) returns (on: bool)
      ensures on == OnRunqueue(rq, p)
    {
      on := exists c :: 0 <= c < |rq| && p in rq[c];
    }

    method EnqueueTask(c: nat, p: nat)
      requires c < |rq|
      modifies this`rq
      ensures rq == Enqueue(old(rq), c, p)
    {
      rq := rq[c := rq[c] + [p]];
    }

    /** select_task_cpu */
    method SelectTaskCpu(p: nat) returns (best: nat)
      requires p in tasks
      ensures best == SelectCpu(Now(), p)
    {
      var allowed := Allowed(tasks[p], |rq|);
      var found, best_len := -1, NR_CPUS + 1;
      for cpu: nat := 0 to |rq|
        invariant found == BestBelow(rq, allowed, cpu) && best_len == if found < 0 then NR_CPUS + 1 else |rq[found]|
      {
        if cpu !in allowed { continue; }
        var len := |rq[cpu]|;
        if len < best_len {
          best_len := len;
          found := cpu;
        }
      }
      best := if found < 0 then tasks[p].cpu else found;
    }

    /** wake_up_process; kicked is the CPU to be told to reschedule, if any. */
    method WakeUpProcess(p: nat) returns (kicked: int)
      requires p in tasks && tasks[p].cpu < |rq|
      modifies this`tasks, this`rq
      ensures Now() == WakeUp(old(Now()), p)
      ensures kicked == if OnRunqueue(old(rq), p) then -1 else old(tasks[p].cpu)
    {
      hide OnRunqueue;
      kicked := -1;
      var on := TaskOnRunqueue(p);
      if tasks[p].state != Running {
        tasks := tasks[p := tasks[p].(state := Running)];
        if !on {
          kicked := tasks[p].cpu;
          EnqueueTask(kicked, p);
        }
      } else if !on {
        kicked := tasks[p].cpu;
        EnqueueTask(kicked, p);
      }
      assert tasks == old(tasks)[p := old(tasks[p]).(state := Running)];
    }

    /** The first check of schedule on CPU c. */
    method CheckOutgoing(c: nat)
      requires Inv(Now()) && c < |rq|
      modifies this`tasks, this`rq
      ensures Now() == Outgoing(old(Now()), c)
    {
      hide Inv, OnRunqueue, Remove;
      CurrentFacts(Now(), c);
      var p := current[c];
      if tasks[p].state != Running && p != idle[c] {
        var on := TaskOnRunqueue(p);
        if tasks[p].state == Interruptible && tasks[p].pending {
          tasks := tasks[p := tasks[p].(state := Running)];
        } else if on {
          rq := rq[tasks[p].cpu := Remove(rq[tasks[p].cpu], p)];
        }
      }
    }

    /** The signal scan of schedule on CPU c. */
    method ScanSignals(c: nat)
      requires Between(Now(), c) && c < |current|
      modifies this`tasks, this`rq
      ensures Now() == Scan(old(Now()), current[c], list) && Between(Now(), c)
    {
      hide Between, OnRunqueue, SelectCpu;
      ghost var s := Now();
      assert list[..0] == [];
      for i := 0 to |list|
        invariant Now() == Scan(s, s.current[c], list[..i]) && Between(Now(), c)
        invariant current == s.current && list == s.list
      {
        var p := list[i];
        ListFacts(Now(), c, p);
        assert list[..i + 1] == list[..i] + [p];
        ScanOneKeeps(Now(), c, p);
        ghost var before := Now();
        if p != current[c] && tasks[p].state == Interruptible && tasks[p].pending {
          var on := TaskOnRunqueue(p);
          var target := tasks[p].cpu;
          if !on { target := SelectTaskCpu(p); }
          tasks := tasks[p := tasks[p].(state := Running)];
          if !on {
            tasks := tasks[p := tasks[p].(cpu := target)];
            EnqueueTask(target, p);
          }
        }
        assert Now() == ScanOne(before, current[c], p);
      }
      assert list[..|list|] == list;
    }

    /** The second check of schedule on CPU c; late says that a signal arrived since the first. */
    method RecheckCurrent(c: nat, late: bool)
      requires Sized(Now()) && c < |rq| && current[c] in tasks
      modifies this`tasks, this`rq
      ensures Now() == Recheck(old(Now()), c, late)
    {
      hide OnRunqueue;
      var p := current[c];
      tasks := tasks[p := tasks[p].(pending := tasks[p].pending || late)];
      var woke := false;
      if tasks[p].state == Interruptible && tasks[p].pending {
        tasks := tasks[p := tasks[p].(state := Running)];
        woke := true;
      }
      var on := TaskOnRunqueue(p);
      if woke && !on { EnqueueTask(c, p); }
    }

    /** The choice of the next task on CPU c, with new time slices when all of its queue are used up. */
    method ChooseNext(c: nat)
      requires Sized(Now()) && c < |rq|
      requires forall p :: p in rq[c] || p in list ==> p in tasks
      modifies this`tasks, this`current
      ensures Now() == Choose(old(Now()), c)
    {
      var counter: int, next: nat := -100, idle[c];
      var q := rq[c];
      assert q[..0] == [];
      for j := 0 to |q|
        invariant (next, counter) == Pick(tasks, q[..j], idle[c])
      {
        assert q[..j + 1][..j] == q[..j];
        var p := q[j];
        assert p in rq[c];
        if tasks[p].counter > counter {
          counter := tasks[p].counter;
          next := p;
        }
      }
      assert q[..|q|] == q;
      if counter == 0 {
        ghost var was := tasks;
        assert Recharged(was, list[..0]) == was;
        for k := 0 to |list|
          invariant tasks == Recharged(was, list[..k]) && current == old(current)
        {
          var p := list[k];
          assert p in list;
          assert list[..k + 1] == list[..k] + [p];
          tasks := tasks[p := tasks[p].(counter := DEF_COUNTER)];
        }
        assert list[..|list|] == list;
      }
      current := current[c := next];
    }

    /** schedule() on CPU c. */
    method ScheduleCpu(c: nat, late: bool)
      requires Inv(Now()) && c < |rq|
      modifies this
      ensures Now() == Schedule(old(Now()), c, late) && Inv(Now())
    {
      ghost var s := Now();
      ScheduleKeeps(s, c, late);
      OutgoingKeeps(s, c);
      CheckOutgoing(c);
      ScanSized(Now(), current[c], list);
      ScanSignals(c);
      ghost var s2 := Now();
      RecheckKeeps(s2, c, late);
      BetweenFacts(s2, c);
      hide Inv, Between, Outgoing, Recheck, Choose, Scan;
      RecheckCurrent(c, late);
      BetweenFacts(Now(), c);
      ChooseNext(c);
    }
  }

  lemma CurrentFacts(s: State, c: nat)
    requires Inv(s) && c < |s.rq|
    ensures Sized(s) && s.current[c] in s.tasks && s.tasks[s.current[c]].cpu < |s.rq|
  {
    assert CpuOk(s, c);
  }

  lemma ListFacts(s: State, c: nat, p: nat)
    requires Between(s, c) && p in s.list
    ensures p in s.tasks && Sized(s) && c < |s.rq| && s.tasks[p].cpu < |s.rq| && SelectCpu(s, p) < |s.rq|
  {
  }

  lemma BetweenFacts(s: State, c: nat)
    requires Between(s, c)
    ensures Sized(s) && c < |s.rq| && s.current[c] in s.tasks && forall p :: p in s.rq[c] || p in s.list ==>
      p in s.tasks
  {
  }
}
