/** src/kernel/semaphore.c, src/kernel/wait.c and wake_up_1st: a semaphore with its wait queue. */
module Semaphores {
  import opened Lists

  /** Where a thread is: Asleep in sleep_on, Woken but not yet past out_wait_queue, or Holding after down. */
  datatype Pc = Idle | Asleep | Woken | Holding

  /** The semaphore and its threads; arrived and granted list who went to sleep and who was woken, in order. */
  datatype State = State(count: int, queue: seq<nat>, pcs: map<nat, Pc>, arrived: seq<nat>, granted: seq<nat>)

  datatype Act = Down(t: nat) | Resume(t: nat) | Up(t: nat)

  predicate Enabled(s: State, a: Act) {
    a.t in s.pcs &&
    match a
    case Down(t) => s.pcs[t].Idle?
    case Resume(t) => s.pcs[t].Woken?
    case Up(t) => s.pcs[t].Holding?
  }

  /** wake_up_1st: the head of the queue becomes runnable; it leaves the queue itself. */
  function WakeFirst(s: State): State
  {
    if s.queue != [] && s.queue[0] in s.pcs && s.pcs[s.queue[0]].Asleep?
    then s.(pcs := s.pcs[s.queue[0] := Woken], granted := s.granted + [s.queue[0]]) else s
  }

  /** down up to schedule, the rest of sleep_on, and up by thread t; any thread may up a counting semaphore. */
  function UpStep(s: State): State
  {
    var s' := s.(count := s.count + 1);
    if s'.count <= 0 then WakeFirst(s') else s'
  }

  function Next(s: State, a: Act): State
    requires Enabled(s, a)
  {
    match a
    case Down(t) =>
      if s.count - 1 < 0 then s.(count := s.count - 1, queue := s.queue + [t], pcs := s.pcs[t := Asleep],
        arrived := s.arrived + [t])
      else s.(count := s.count - 1, pcs := s.pcs[t := Holding])
    case Resume(t) => s.(queue := Remove(s.queue, t), pcs := s.pcs[t := Holding])
    case Up(t) => UpStep(s.(pcs := s.pcs[t := Idle]))
  }

  predicate Owns(pc: Pc) { pc.Holding? || pc.Woken? }

  /** The waiters that have not been woken, in order. */
  function Waiters(s: State): seq<nat>
  {
    if s.queue != [] && s.queue[0] in s.pcs && s.pcs[s.queue[0]].Woken? then s.queue[1..] else s.queue
  }

  function Owners(s: State): set<nat> { set t | t in s.pcs && Owns(s.pcs[t]) }

  /** The queue holds the sleepers and those on their way out, each once; only its head may be woken. */
  ghost predicate QueueOk(s: State) {
    && NoDup(s.queue)
    && (forall t :: t in s.queue <==> t in s.pcs && (s.pcs[t].Asleep? || s.pcs[t].Woken?))
    && (forall i :: 0 < i < |s.queue| ==> s.pcs[s.queue[i]].Asleep?)
  }

  /** A semaphore used as a mutex: one owner at most, who holds it or has been handed it, and the others wait in
      order. */
  ghost predicate Inv(s: State) {
    && (forall t, u :: t in s.pcs && u in s.pcs && Owns(s.pcs[t]) && Owns(s.pcs[u]) ==> t == u)
    && QueueOk(s)
    && s.count == (if Owners(s) == {} then 1 else 0) - |Waiters(s)|
    && (Owners(s) == {} ==> s.queue == [])
    && s.arrived == s.granted + Waiters(s)
  }

  /** The initial state after init_MUTEX. */
  lemma InitOk(threads: set<nat>)
    ensures Inv(State(1, [], map t | t in threads :: Idle, [], []))
  {
  }

  lemma SoleOwner(s: State, t: nat)
    requires Inv(s) && t in s.pcs && Owns(s.pcs[t])
    ensures Owners(s) == {t}
  {
    assert t in Owners(s);
  }

  lemma DownQueue(s: State, t: nat)
    requires QueueOk(s) && Enabled(s, Down(t)) && s.count < 1
    ensures QueueOk(Next(s, Down(t)))
    ensures Waiters(Next(s, Down(t))) == if s.queue == [] then [t] else Waiters(s) + [t]
  {
    assert t !in s.queue;
    Appended(s.queue, t);
    hide NoDup, Remove, WakeFirst;
    assert s.queue != [] ==> s.queue[0] in s.queue;
  }

  lemma DownSleeps(s: State, t: nat)
    requires Inv(s) && Enabled(s, Down(t)) && s.count < 1
    ensures Inv(Next(s, Down(t)))
  {
    hide QueueOk, Waiters, WakeFirst, Remove, NoDup;
    DownQueue(s, t);
    var s' := Next(s, Down(t));
    if s.queue == [] { WaitersNone(s); }
    assert Owners(s) != {};
    assert Owners(s') == Owners(s);
  }

  lemma WaitersNone(s: State)
    requires s.queue == []
    ensures Waiters(s) == []
  {
  }

  lemma DownHolds(s: State, t: nat)
    requires Inv(s) && Enabled(s, Down(t)) && s.count >= 1
    ensures Inv(Next(s, Down(t)))
  {
    var s' := Next(s, Down(t));
    assert Owners(s) == {} && s.queue == [];
    forall u | u in s.pcs ensures !Owns(s.pcs[u]) { assert u !in Owners(s); }
    assert t in Owners(s');
  }

  lemma ResumeKeeps(s: State, t: nat)
    requires Inv(s) && Enabled(s, Resume(t))
    ensures Inv(Next(s, Resume(t)))
  {
    var s' := Next(s, Resume(t));
    SoleOwner(s, t);
    assert t in s.queue;
    assert s.queue[0] == t && s'.queue == s.queue[1..] == Waiters(s);
    assert Owners(s') == {t};
    assert Waiters(s') == s'.queue;
  }

  lemma UpKeeps(s: State, t: nat)
    requires Inv(s) && Enabled(s, Up(t))
    ensures Inv(Next(s, Up(t)))
  {
    var s' := Next(s, Up(t));
    SoleOwner(s, t);
    assert Waiters(s) == s.queue;
    if s.queue != [] {
      assert s.queue[0] in s.queue;
      assert Owners(s') == {s.queue[0]};
      assert Waiters(s') == s.queue[1..];
      assert s.granted + s.queue == s'.granted + s.queue[1..];
    } else {
      assert Owners(s') == {};
    }
  }

  lemma StepKeeps(s: State, a: Act)
    requires Inv(s) && Enabled(s, a)
    ensures Inv(Next(s, a))
  {
    hide Inv, Next;
    match a
    case Down(t) => if s.count < 1 { DownSleeps(s, t); } else { DownHolds(s, t); }
    case Resume(t) => ResumeKeeps(s, t);
    case Up(t) => UpKeeps(s, t);
  }

  ghost predicate Reaches(s: State, acts: seq<Act>, s': State)
    decreases |acts|
  {
    if acts == [] then s' == s else Enabled(s, acts[0]) && Reaches(Next(s, acts[0]), acts[1..], s')
  }

  /** Over every run: at most one thread is between down and up, and threads are woken in the order they went to
      sleep. */
  lemma {:induction false} RunKeeps(s: State, acts: seq<Act>, s': State)
    requires Inv(s) && Reaches(s, acts, s')
    ensures Inv(s') && s'.granted <= s'.arrived
    ensures forall t, u :: t in s'.pcs && u in s'.pcs && s'.pcs[t].Holding? && s'.pcs[u].Holding? ==> t == u
    decreases |acts|
  {
    hide Next;
    if acts != [] {
      StepKeeps(s, acts[0]);
      RunKeeps(Next(s, acts[0]), acts[1..], s');
    }
  }

  /** An up with waiters hands the semaphore to the one that has waited longest and has not been woken. */
  lemma UpHandsOver(s: State, t: nat)
    requires Inv(s) && Enabled(s, Up(t)) && Waiters(s) != []
    ensures var s' := Next(s, Up(t));
      s'.granted == s.granted + [Waiters(s)[0]] && Waiters(s') == Waiters(s)[1..] && s'.pcs[Waiters(s)[0]].Woken?
  {
    SoleOwner(s, t);
    assert Waiters(s) == s.queue && s.queue[0] in s.queue;
  }

  /** A down takes a free mutex at once, and else its thread goes to sleep behind all others; no other thread
      notices. */
  lemma DownDecides(s: State, t: nat)
    requires Inv(s) && Enabled(s, Down(t))
    ensures var s' := Next(s, Down(t));
      && s'.count == s.count - 1 && s'.granted == s.granted
      && (if s.count > 0 then s'.pcs[t] == Holding && s'.queue == s.queue && s'.arrived == s.arrived
          else s'.pcs[t] == Asleep && s'.queue == s.queue + [t] && s'.arrived == s.arrived + [t])
      && s'.pcs.Keys == s.pcs.Keys && forall u :: u in s.pcs && u != t ==> s'.pcs[u] == s.pcs[u]
    ensures s.count > 0 <==> forall u :: u in s.pcs ==> !s.pcs[u].Holding? && !s.pcs[u].Woken?
  {
    forall u | u in s.pcs && Owns(s.pcs[u]) ensures Owners(s) != {} { assert u in Owners(s); }
    if Owners(s) != {} {
      var u :| u in Owners(s);
      assert u in s.pcs && Owns(s.pcs[u]);
    }
  }

  /** A woken thread holds the mutex when its down returns, and is in the queue no more. */
  lemma ResumeHolds(s: State, t: nat)
    requires Inv(s) && Enabled(s, Resume(t))
    ensures var s' := Next(s, Resume(t));
      && s'.pcs == s.pcs[t := Holding] && t !in s'.queue && s'.count == s.count && s'.granted == s.granted
      && [t] + s'.queue == s.queue
  {
    SoleOwner(s, t);
    assert t in s.queue && s.queue[0] == t;
  }

  /** An up without waiters frees the mutex, and any up ends its own thread's hold. */
  lemma UpFrees(s: State, t: nat)
    requires Inv(s) && Enabled(s, Up(t))
    ensures var s' := Next(s, Up(t));
      && s'.pcs[t].Idle? && s'.count == s.count + 1 && s'.queue == s.queue
      && (Waiters(s) == [] ==> s'.count == 1 && s'.granted == s.granted && s'.pcs == s.pcs[t := Idle])
  {
    SoleOwner(s, t);
    assert Waiters(s) == s.queue;
    assert s.queue != [] ==> s.queue[0] in s.queue;
  }

  /** No thread sleeps on a free semaphore. */
  lemma NoSleepersWhenFree(s: State)
    requires Inv(s) && s.count > 0
    ensures forall t :: t in s.pcs ==> s.pcs[t].Idle?
  {
    assert Owners(s) == {};
    forall t | t in s.pcs ensures s.pcs[t].Idle? {
      assert t !in s.queue && t !in Owners(s);
    }
  }

  // Counting use: any thread may down again, and anyone may up, an interrupt handler included.

  datatype Use = Wait(t: nat) | Return(t: nat) | Signal

  predicate Allowed(s: State, u: Use) {
    match u
    case Wait(t) => t in s.pcs && !s.pcs[t].Asleep? && !s.pcs[t].Woken?
    case Return(t) => t in s.pcs && s.pcs[t].Woken?
    case Signal => true
  }

  function Used(s: State, u: Use): State
    requires Allowed(s, u)
  {
    match u
    case Wait(t) => Next(s.(pcs := s.pcs[t := Idle]), Down(t))
    case Return(t) => Next(s, Resume(t))
    case Signal => UpStep(s)
  }

  ghost predicate Goes(s: State, us: seq<Use>, s': State)
    decreases |us|
  {
    if us == [] then s' == s else Allowed(s, us[0]) && Goes(Used(s, us[0]), us[1..], s')
  }

  /** An up that finds the count below zero while the head of the queue is already woken, but not yet out of the
      queue. */
  predicate HitsWoken(s: State, u: Use) {
    u.Signal? && s.count < 0 && s.queue != [] && s.queue[0] in s.pcs && s.pcs[s.queue[0]].Woken?
  }

  /** How many ups of a run do. */
  ghost function Misses(s: State, us: seq<Use>): nat
    decreases |us|
  {
    if us == [] || !Allowed(s, us[0]) then 0
    else (if HitsWoken(s, us[0]) then 1 else 0) + Misses(Used(s, us[0]), us[1..])
  }

  /** How many threads the count says are to wait. */
  function Owing(count: int): nat { if count < 0 then -count else 0 }

  /** Only the head of the queue may be woken; missed is how many wakeups got lost. */
  ghost predicate CountInv(s: State, missed: nat) {
    && QueueOk(s)
    && |Waiters(s)| == Owing(s.count) + missed
    && s.arrived == s.granted + Waiters(s)
  }

  /** sema_init with any count. */
  function Fresh(n: nat, threads: set<nat>): State { State(n, [], map t | t in threads :: Idle, [], []) }

  lemma FreshOk(n: nat, threads: set<nat>)
    ensures CountInv(Fresh(n, threads), 0)
  {
  }

  /** A thread outside the queue changes nothing about it. */
  lemma OutsideQueue(s: State, t: nat, pc: Pc, s': State)
    requires QueueOk(s) && t in s.pcs && t !in s.queue && !pc.Asleep? && !pc.Woken?
    requires s'.queue == s.queue && s'.pcs == s.pcs[t := pc]
    ensures QueueOk(s') && Waiters(s') == Waiters(s)
  {
    hide NoDup;
    assert s.queue != [] ==> s.queue[0] in s.queue;
  }

  lemma WaitCounts(s: State, t: nat, missed: nat)
    requires CountInv(s, missed) && Allowed(s, Wait(t))
    ensures CountInv(Used(s, Wait(t)), missed)
  {
    hide NoDup, Remove, WakeFirst;
    assert t !in s.queue;
    hide QueueOk, Waiters;
    var s0, s' := s.(pcs := s.pcs[t := Idle]), Used(s, Wait(t));
    if s.count < 1 {
      OutsideQueue(s, t, Idle, s0);
      DownQueue(s0, t);
      if s.queue == [] { WaitersNone(s); }
    } else {
      assert s0.pcs[t := Holding] == s.pcs[t := Holding];
      OutsideQueue(s, t, Holding, s');
    }
  }

  lemma ReturnCounts(s: State, t: nat, missed: nat)
    requires CountInv(s, missed) && Allowed(s, Return(t))
    ensures CountInv(Used(s, Return(t)), missed)
  {
    assert t in s.queue && s.queue[0] == t;
    var s' := Used(s, Return(t));
    assert s'.queue == s.queue[1..] == Waiters(s);
    assert s'.queue != [] ==> s'.queue[0] == s.queue[1] && s.queue[1] in s.queue && s.queue[1] != t;
    assert Waiters(s') == s'.queue;
  }

  lemma SignalCounts(s: State, missed: nat)
    requires CountInv(s, missed)
    ensures CountInv(Used(s, Signal), missed + if HitsWoken(s, Signal) then 1 else 0)
    ensures Used(s, Signal).granted == if s.count < 0 && !HitsWoken(s, Signal) then s.granted + Waiters(s)[..1]
      else s.granted
  {
    assert s.queue != [] ==> s.queue[0] in s.queue && s.queue[0] !in s.queue[1..];
    forall i | 0 < i < |s.queue| ensures s.queue[i] != s.queue[0] { assert s.queue[i] in s.queue[1..]; }
    hide NoDup;
    var s' := Used(s, Signal);
    if s.count < 0 && !HitsWoken(s, Signal) {
      assert Waiters(s) == s.queue != [] && Waiters(s') == s.queue[1..];
      assert s.granted + s.queue == s'.granted + s.queue[1..];
    } else {
      assert Waiters(s') == Waiters(s);
    }
  }

  lemma UseCounts(s: State, u: Use, missed: nat)
    requires CountInv(s, missed) && Allowed(s, u)
    ensures CountInv(Used(s, u), missed + if HitsWoken(s, u) then 1 else 0)
  {
    hide CountInv, Used;
    match u
    case Wait(t) => WaitCounts(s, t, missed);
    case Return(t) => ReturnCounts(s, t, missed);
    case Signal => SignalCounts(s, missed);
  }

  /** Over every run of any threads: the threads asleep and not woken are those the count says, and one more for every
      up that hit a woken head; threads are woken in the order they went to sleep. */
  lemma {:induction false} LostWakeups(s: State, us: seq<Use>, s': State, missed: nat)
    requires CountInv(s, missed) && Goes(s, us, s')
    ensures CountInv(s', missed + Misses(s, us))
    decreases |us|
  {
    hide CountInv, Used, Allowed, HitsWoken;
    if us != [] {
      UseCounts(s, us[0], missed);
      LostWakeups(Used(s, us[0]), us[1..], s', missed + if HitsWoken(s, us[0]) then 1 else 0);
    }
  }

  /** So no sleeper is left behind exactly in the runs without such an up, and in these every up that finds a sleeper
      wakes the one that has waited longest, unless it is such an up itself. */
  lemma NoneLostIff(n: nat, threads: set<nat>, us: seq<Use>, s': State)
    requires Goes(Fresh(n, threads), us, s')
    ensures |Waiters(s')| == Owing(s'.count) <==> Misses(Fresh(n, threads), us) == 0
    ensures s'.granted <= s'.arrived
    ensures Misses(Fresh(n, threads), us) == 0 && Waiters(s') != [] ==>
      Used(s', Signal).granted == s'.granted + (if HitsWoken(s', Signal) then [] else [Waiters(s')[0]])
  {
    FreshOk(n, threads);
    LostWakeups(Fresh(n, threads), us, s', 0);
    SignalCounts(s', Misses(Fresh(n, threads), us));
    hide Goes, Misses, UpStep;
  }

  /** Two downs and two ups in a row from a count of zero: both ups go to the first thread, which returns, and the
      second sleeps on; a third up does not wake it either. */
  lemma CountingLosesWakeup()
    ensures var s := Fresh(0, {1, 2});
      var s' := State(0, [2], map[1 := Holding, 2 := Asleep], [1, 2], [1]);
      && Goes(s, [Wait(1), Wait(2), Signal, Signal, Return(1)], s')
        && Misses(s, [Wait(1), Wait(2), Signal, Signal, Return(1)]) == 1
      && Used(s', Signal).pcs[2].Asleep?
  {
  }

  // In place.

  class WaitQueue {
    var list: seq<nat>

    constructor ()
      ensures list == []
    {
      list := [];
    }

    method InWaitQueue(t: nat)
      modifies this
      ensures list == old(list) + [t]
    {
      list := list + [t];
    }

    /** A node that is not linked stays so. */
    method OutWaitQueue(t: nat)
      modifies this
      ensures list == Remove(old(list), t)
    {
      var k := 0;
      ghost var q := list;
      while k < |list|
        invariant k <= |list| && list == q && Remove(q, t) == q[..k] + Remove(q[k..], t)
      {
        if list[k] == t {
          list := list[..k] + list[k + 1..];
          return;
        }
        assert q[k..][1..] == q[k + 1..];
        k := k + 1;
      }
      assert q[k..] == [];
    }
  }

  class Semaphore {
    var count: int
    const wait: WaitQueue

    constructor (n: int)
      ensures count == n && wait.list == [] && fresh(wait)
    {
      count := n;
      wait := new WaitQueue();
    }

    /** down until it returns or sleeps. */
    method Down(t: nat) returns (sleeps: bool)
      modifies this, wait
      ensures count == old(count) - 1 && sleeps == (count < 0)
      ensures wait.list == if sleeps then old(wait.list) + [t] else old(wait.list)
    {
      count := count - 1;
      sleeps := count < 0;
      if sleeps { wait.InWaitQueue(t); }
    }

    /** up: the thread to wake, if any; it stays linked until it runs. */
    method Up() returns (wake: seq<nat>)
      modifies this
      ensures count == old(count) + 1 && wait.list == old(wait.list)
      ensures wake == if count <= 0 && wait.list != [] then wait.list[..1] else []
    {
      count := count + 1;
      wake := [];
      if count <= 0 {
        if wait.list != [] { wake := [wait.list[0]]; }
      }
    }
  }
}
