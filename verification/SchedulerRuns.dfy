/**
  Runs of the process kernel: every sequence of clone, exit, wait4, resumption and yield from boot.
 */
module SchedulerRuns {
  import opened Collections
  import opened Scheduler

  datatype Event = DoClone(thread: bool) | DoExit | DoWait(hint: int, nohang: bool) | DoResume | DoYield

  /** Every pid in a list or a wait queue is that of a task. */
  ghost predicate Linked(k: Kernel) {
    && (forall p :: p in Slots(k) ==> p in k.tasks)
    && (forall c, w :: c in k.tasks && w in k.tasks[c].waiters ==> w in k.tasks)
  }

  /** What the holder of the processor can do next; a task dispatched inside wait4 can only go on with it. */
  predicate Offered(k: Kernel, e: Event) {
    match e
    case DoYield => k.current.None? || CanAct(k)
    case DoResume => CanResume(k)
    case _ => CanAct(k)
  }

  /** A step up to the yield that ends it, if one does. */
  ghost function Acted(k: Kernel, e: Event): Kernel
    requires Linked(k) && Offered(k, e)
  {
    match e
    case DoClone(thread) => Clone(k, thread)
    case DoExit => Exit(k)
    case DoWait(hint, nohang) => Wait4(k, hint, nohang)
    case DoResume => Resume(k)
    case DoYield => k
  }

  predicate Yields(k: Kernel, e: Event)
    requires Offered(k, e)
  {
    e.DoExit? || e.DoYield? || (e.DoWait? && Sleeps(k, e.hint, e.nohang))
  }

  ghost predicate Next(k: Kernel, e: Event, k': Kernel) {
    && Linked(k) && Offered(k, e)
    && var a := Acted(k, e);
       if Yields(k, e) then Trapping(a) && k' == Trap(a) else k' == a
  }

  ghost predicate IsRun(ks: seq<Kernel>, es: seq<Event>) {
    && |ks| == |es| + 1 && ks[0] == Boot()
    && forall i :: 0 <= i < |es| ==> Next(ks[i], es[i], ks[i + 1])
  }

  // ---- one step ----

  lemma InvIsLinked(k: Kernel)
    requires Inv(k)
    ensures Linked(k)
  {
    hide Stated, Numbered, WaitsSound, SleepersWait, ReapedOnce, Slots;
  }

  lemma ActKeepsInv(k: Kernel, e: Event)
    requires Inv(k) && Linked(k) && Offered(k, e)
    ensures var a := Acted(k, e); if Yields(k, e) then Trapping(a) && Inv(Trap(a)) else Inv(a)
  {
    hide Inv, Trap, Linked;
    match e {
      case DoClone(thread) => CloneKeepsInv(k, thread);
      case DoExit => ExitKeepsInv(k);
      case DoWait(hint, nohang) => WaitKeepsInv(k, hint, nohang);
      case DoResume => ResumeKeepsInv(k);
      case DoYield => YieldKeepsInv(k);
    }
  }

  lemma StepKeepsInv(k: Kernel, e: Event, k': Kernel)
    requires Inv(k) && Next(k, e, k')
    ensures Inv(k')
  {
    hide Inv, Trap, Linked;
    ActKeepsInv(k, e);
  }

  /** No step is ever stuck: whatever is offered has an outcome, and something always is. */
  lemma StepExists(k: Kernel)
    requires Inv(k)
    ensures forall e :: Offered(k, e) ==> exists k' :: Next(k, e, k')
    ensures Offered(k, DoYield) || Offered(k, DoResume)
  {
    InvIsLinked(k);
    forall e | Offered(k, e) ensures exists k' :: Next(k, e, k') {
      ActKeepsInv(k, e);
      var a := Acted(k, e);
      hide Inv, Linked, Acted, Trap, Trapping;
      assert Next(k, e, if Yields(k, e) then Trap(a) else a);
    }
    if k.current.Some? {
      CurrentIsElsewhere(k);
    }
  }

  /** Everything in `Inv` holds in every state of every run. */
  lemma {:induction false} RunKeepsInv(ks: seq<Kernel>, es: seq<Event>, i: nat)
    requires IsRun(ks, es) && i < |ks|
    ensures Inv(ks[i])
  {
    if i == 0 {
      BootIsFine();
    } else {
      RunKeepsInv(ks, es, i - 1);
      StepKeepsInv(ks[i - 1], es[i - 1], ks[i]);
    }
  }

  // ---- tasks, one at a time ----

  lemma TrapMovesNoTask(k: Kernel)
    requires Trapping(k)
    ensures Trap(k).tasks == k.tasks && Trap(k).reaped == k.reaped && Trap(k).registered == k.registered
  {
    TrapRotates(k);
  }

  /** What a step makes of the state, the exit flag and the pending wait of a task. */
  lemma StepAtTask(k: Kernel, e: Event, k': Kernel, p: Pid)
    requires Inv(k) && Next(k, e, k') && p in k.tasks
    ensures p in k'.tasks
    ensures var t, t' := k.tasks[p], k'.tasks[p];
      && (e.DoExit? && k.current == Some(p) ==> t'.exited && t'.state == Exiting)
      && (e.DoExit? && k.current != Some(p) ==>
            t'.exited == t.exited && t'.state ==
              (if p in k.tasks[k.current.value].waiters then Woken(t).state else t.state))
      && (e.DoWait? && Sleeps(k, e.hint, e.nohang) && k.current == Some(p) ==>
        t'.exited == t.exited && t'.state == Interruptible)
      && (!e.DoExit? && !(e.DoWait? && Sleeps(k, e.hint, e.nohang) && k.current == Some(p)) ==>
            t'.exited == t.exited && t'.state == t.state)
  {
    hide Placed, Stated, WaitsSound, QueuesSound, SleepersWait, ReapedOnce, Trap, Trapping;
    var a := Acted(k, e);
    if Yields(k, e) {
      TrapMovesNoTask(a);
    }
    assert k'.tasks == a.tasks;
    match e {
      case DoClone(thread) => assert p != k.nextPid;
      case DoExit =>
        ExitAt(k);
        assert a.tasks[p] == AfterExit(k.tasks, k.current.value, p);
      case DoWait(hint, nohang) =>
      case DoResume =>
      case DoYield =>
    }
  }

  /** Every change of state is one that the transition table allows. */
  lemma TransitionsAllowed(k: Kernel, e: Event, k': Kernel, p: Pid)
    requires Inv(k) && Next(k, e, k') && p in k.tasks
    ensures p in k'.tasks && Allowed(k.tasks[p].state, k'.tasks[p].state)
  {
    hide WaitsSound, QueuesSound, Numbered, Trap, Linked, Acted, Trapping, Sleeps, Placed, ReapedOnce;
    StepAtTask(k, e, k', p);
  }

  /**
    No lost wake-up and no spurious one: a task blocked in wait4 stays blocked until a child in its wait list exits,
    and is runnable as soon as one has.
   */
  lemma WakesExactlyOnExit(k: Kernel, e: Event, k': Kernel, p: Pid)
    requires Inv(k) && Next(k, e, k') && p in k.tasks && k.tasks[p].state == Interruptible
    ensures p in k'.tasks && k'.tasks[p].state in {Interruptible, Running}
    ensures k.tasks[p].wait.Some?
    ensures k'.tasks[p].state == Running <==>
      e.DoExit? && k.current.Some? && k.current.value in k.tasks[p].wait.value.blobs
  {
    hide Linked, Trap, Trapping, Acted, Placed, Numbered, ReapedOnce, Sleeps;
    StepAtTask(k, e, k', p);
    assert WaitIsSound(k.tasks, k.registered, p);
  }

  /** Only a wait4 that sleeps blocks a task, and only its caller. */
  lemma BlocksOnlyInWait(k: Kernel, e: Event, k': Kernel, p: Pid)
    requires Inv(k) && Next(k, e, k') && p in k.tasks && p in k'.tasks
    requires k.tasks[p].state != Interruptible && k'.tasks[p].state == Interruptible
    ensures e.DoWait? && k.current == Some(p) && Sleeps(k, e.hint, e.nohang)
  {
    StepAtTask(k, e, k', p);
  }

  // ---- reaping ----

  /** What wait4 returns in this step; zero if it returns nothing. */
  function Answer(k: Kernel, e: Event): int
    requires Offered(k, e)
  {
    match e
    case DoWait(hint, nohang) => if Sleeps(k, hint, nohang) then 0
      else ScanChildren(k, k.current.value, hint, nohang).ret
    case DoResume => Result(k.tasks, k.tasks[k.current.value].wait.value)
    case _ => 0
  }

  /** The caller of wait4 has no entry in any wait queue. */
  ghost predicate InNoQueue(k: Kernel, me: Pid) {
    forall c :: c in k.tasks ==> me !in k.tasks[c].waiters
  }

  /**
    A positive answer of wait4 is the pid of a registered, exited child of the caller that was never returned before;
    afterwards it is unregistered and the caller is in no wait queue.
   */
  lemma AnswerIsFresh(k: Kernel, e: Event, k': Kernel)
    requires Inv(k) && Next(k, e, k')
    ensures var r := Answer(k, e);
      && k'.reaped == (if r > 0 then k.reaped + [r] else k.reaped)
      && (r > 0 ==> k.current.Some? && Reapable(k.tasks, k.registered, k.current.value, r) && r !in k.reaped)
      && (r > 0 ==> r !in k'.registered && InNoQueue(k', k.current.value))
  {
    hide Placed, Stated, WaitsSound, SleepersWait, Trap, Trapping, Result, ScanChildren;
    var a := Acted(k, e);
    if Yields(k, e) {
      TrapMovesNoTask(a);
    }
    match e {
      case DoClone(thread) =>
      case DoExit =>
      case DoWait(hint, nohang) =>
        var me := k.current.value;
        ScanFacts(k, me, hint, nohang);
        if !Sleeps(k, hint, nohang) {
          ReturnKeepsSound(k, me, ScanChildren(k, me, hint, nohang).ret);
          IdleTaskIsInNoQueue(k.tasks, me);
        }
      case DoResume => ResumeKeepsInv(k);
      case DoYield =>
    }
  }

  lemma NextOffers(k: Kernel, e: Event, k': Kernel)
    requires Next(k, e, k')
    ensures Offered(k, e)
  {
  }

  lemma {:induction false} ReapedGrows(ks: seq<Kernel>, es: seq<Event>, i: nat, j: nat)
    requires IsRun(ks, es) && i <= j < |ks|
    ensures ks[i].reaped <= ks[j].reaped
    decreases j
  {
    hide Next;
    if i < j {
      ReapedGrows(ks, es, i, j - 1);
      RunKeepsInv(ks, es, j - 1);
      assert Next(ks[j - 1], es[j - 1], ks[j]);
      NextOffers(ks[j - 1], es[j - 1], ks[j]);
      AnswerIsFresh(ks[j - 1], es[j - 1], ks[j]);
    }
  }

  /** Over any run no pid is returned by wait4 twice. */
  lemma ReapedAtMostOnce(ks: seq<Kernel>, es: seq<Event>, i: nat, j: nat)
    requires IsRun(ks, es) && i < j < |es|
    ensures Offered(ks[i], es[i]) && Offered(ks[j], es[j])
    ensures Answer(ks[i], es[i]) > 0 ==> Answer(ks[i], es[i]) != Answer(ks[j], es[j])
  {
    hide Next, Inv;
    assert Next(ks[i], es[i], ks[i + 1]) && Next(ks[j], es[j], ks[j + 1]);
    NextOffers(ks[i], es[i], ks[i + 1]);
    NextOffers(ks[j], es[j], ks[j + 1]);
    RunKeepsInv(ks, es, i);
    RunKeepsInv(ks, es, j);
    AnswerIsFresh(ks[i], es[i], ks[i + 1]);
    AnswerIsFresh(ks[j], es[j], ks[j + 1]);
    ReapedGrows(ks, es, i + 1, j);
    var r := Answer(ks[i], es[i]);
    if r > 0 {
      assert r in ks[i + 1].reaped;
    }
  }

  // ---- exit is final ----

  lemma ExitedIsGone(k: Kernel, p: Pid)
    requires Inv(k) && p in k.tasks && k.tasks[p].exited
    ensures k.tasks[p].state == Exiting && k.current != Some(p) && p !in k.running && p !in k.blocking
  {
    hide Sound;
    assert p !in Slots(k);
    assert k.current == Some(p) ==> p in CurrentSlot(k);
  }

  lemma StepKeepsExit(k: Kernel, e: Event, k': Kernel, p: Pid)
    requires Inv(k) && Next(k, e, k') && p in k.tasks && k.tasks[p].exited
    ensures p in k'.tasks && k'.tasks[p].exited
  {
    hide Inv;
    StepAtTask(k, e, k', p);
  }

  /** Once it has exited, a task is never dispatched again and is in no list. */
  lemma {:induction false} ExitIsFinal(ks: seq<Kernel>, es: seq<Event>, i: nat, j: nat, p: Pid)
    requires IsRun(ks, es) && i <= j < |ks| && p in ks[i].tasks && ks[i].tasks[p].exited
    ensures p in ks[j].tasks && ks[j].tasks[p].exited && ks[j].tasks[p].state == Exiting
    ensures ks[j].current != Some(p) && p !in ks[j].running && p !in ks[j].blocking
    decreases j
  {
    hide Inv, Next;
    RunKeepsInv(ks, es, j);
    if i < j {
      ExitIsFinal(ks, es, i, j - 1, p);
      RunKeepsInv(ks, es, j - 1);
      assert Next(ks[j - 1], es[j - 1], ks[j]);
      StepKeepsExit(ks[j - 1], es[j - 1], ks[j], p);
    }
    ExitedIsGone(ks[j], p);
  }

  // ---- dispatch ----

  lemma {:induction false} WaitersEndInRunner(k: Kernel, p: Pid) returns (q: Pid)
    requires Inv(k) && Live(k, p)
    ensures Live(k, q) && k.tasks[q].state == Running
    decreases k.nextPid - p
  {
    assert p in Slots(k);
    if k.tasks[p].state == Running {
      q := p;
    } else {
      assert WaitIsSound(k.tasks, k.registered, p);
      var b := k.tasks[p].wait.value.blobs[0];
      assert IsChild(k.tasks, p, b) && p < b < k.nextPid;
      q := WaitersEndInRunner(k, b);
    }
  }

  /** No deadlock: the idle task is dispatched only when every task has exited. */
  lemma IdleOnlyAtTheEnd(k: Kernel, e: Event, k': Kernel)
    requires Inv(k) && Next(k, e, k') && Yields(k, e)
    ensures k'.current.None? <==> forall p :: p in k'.tasks ==> k'.tasks[p].exited
  {
    hide Inv, Trap, Linked, Acted;
    var a := Acted(k, e);
    StepKeepsInv(k, e, k');
    IdleOnlyWhenNothingRuns(a);
    TrapMovesNoTask(a);
    if p :| p in k'.tasks && !k'.tasks[p].exited {
      var q := WaitersEndInRunner(k', p);
      assert Live(a, q);
    }
  }

  /** The traps between two states of a run. */
  ghost function TrapCount(ks: seq<Kernel>, es: seq<Event>, i: nat, j: nat): nat
    requires |ks| == |es| + 1 && i <= j < |ks|
    decreases j - i
  {
    if i == j then 0
    else (if Offered(ks[i], es[i]) && Yields(ks[i], es[i]) then 1 else 0) + TrapCount(ks, es, i + 1, j)
  }

  lemma ActKeepsRunning(k: Kernel, e: Event)
    requires Linked(k) && Offered(k, e)
    ensures k.running <= Acted(k, e).running
  {
  }

  lemma RunningLeadsQueue(k: Kernel)
    requires Trapping(k)
    ensures (k.current.Some? ==> k.current.value in k.tasks) && k.running <= Queue(k)
  {
    hide Filter;
  }

  /** A trap moves every task of the running list one place forward; any other step leaves it in its place. */
  lemma StepAdvances(k: Kernel, e: Event, k': Kernel, n: nat)
    requires Next(k, e, k') && n < |k.running|
    ensures if !Yields(k, e) then n < |k'.running| && k'.running[n] == k.running[n]
            else if n == 0 then k'.current == Some(k.running[0])
            else n - 1 < |k'.running| && k'.running[n - 1] == k.running[n]
  {
    hide Linked, Trap, Acted, Queue, Blocked, Trapping, Yields;
    var a := Acted(k, e);
    ActKeepsRunning(k, e);
    if Yields(k, e) {
      TrapRotates(a);
      RunningLeadsQueue(a);
      assert Queue(a)[n] == k.running[n];
    }
  }

  /** Bounded dispatch: the task at index `n` of the running list is dispatched by the `n + 1`st trap at the latest. */
  lemma {:induction false} DispatchedInTurn(ks: seq<Kernel>, es: seq<Event>, i: nat, j: nat, n: nat) returns (m: nat)
    requires IsRun(ks, es) && i <= j < |ks| && n < |ks[i].running| && TrapCount(ks, es, i, j) > n
    ensures i < m <= j && ks[m].current == Some(ks[i].running[n]) && TrapCount(ks, es, i, m) == n + 1
    ensures forall l :: i <= l < m ==> ks[i].running[n] in ks[l].running
    decreases j - i
  {
    hide Next;
    assert Next(ks[i], es[i], ks[i + 1]);
    NextOffers(ks[i], es[i], ks[i + 1]);
    StepAdvances(ks[i], es[i], ks[i + 1], n);
    if !Yields(ks[i], es[i]) {
      m := DispatchedInTurn(ks, es, i + 1, j, n);
    } else if n == 0 {
      m := i + 1;
    } else {
      m := DispatchedInTurn(ks, es, i + 1, j, n - 1);
    }
  }

  // ---- what a sleeping wait4 has left behind ----

  /**
    A wait4 that sleeps has an entry with every matching child up to the first exited one, none of which has exited,
    and it is in the blocking list.
   */
  lemma SleeperIsRegistered(k: Kernel, hint: int, nohang: bool, k': Kernel)
    requires Inv(k) && Next(k, DoWait(hint, nohang), k') && Sleeps(k, hint, nohang)
    ensures var me, c := k.current.value, Filter(k.registered, WantedBy(k.tasks, k.current.value, hint));
      && me in k'.blocking && me in k'.tasks && k'.tasks[me].state == Interruptible && k'.tasks[me].wait.Some?
      && var Wait(ret, blobs) := k'.tasks[me].wait.value;
         && blobs <= c
         && (forall b :: b in blobs ==> b in k'.tasks && !k'.tasks[b].exited && me in k'.tasks[b].waiters)
         && (if |blobs| == |c| then ret == 0
             else c[|blobs|] in k.tasks && k.tasks[c[|blobs|]].exited && ret == c[|blobs|])
  {
    var me := k.current.value;
    var s := ScanChildren(k, me, hint, nohang);
    var c := Filter(k.registered, WantedBy(k.tasks, me, hint));
    ScanFacts(k, me, hint, nohang);
    LivePrefixFacts(k.tasks, c);
    var w := Wait(s.ret, s.blobs);
    var a := Sleep(k, w);
    assert a == Acted(k, DoWait(hint, nohang));
    TrapMovesNoTask(a);
    TrapRotates(a);
    QueueMembers(a, me);
    assert a.tasks[me] == AfterSleep(k.tasks, me, w, me);
    CurrentIsElsewhere(k);
    hide Inv, Trap, Trapping, Blocked, Queue, LivePrefix;
    assert !nohang;
    if |s.blobs| < |c| {
      FilterMembers(k.registered, WantedBy(k.tasks, me, hint), c[|s.blobs|]);
    }
  }

  // ---- the whole way of a wait ----

  /** No step touches the pending wait of a task that is not on the processor. */
  lemma StepKeepsWait(k: Kernel, e: Event, k': Kernel, p: Pid)
    requires Inv(k) && Next(k, e, k') && p in k.tasks && k.current != Some(p)
    ensures p in k'.tasks && k'.tasks[p].wait == k.tasks[p].wait
  {
    hide Placed, Stated, WaitsSound, QueuesSound, SleepersWait, ReapedOnce, Trap, Trapping;
    var a := Acted(k, e);
    if Yields(k, e) {
      TrapMovesNoTask(a);
    }
    match e {
      case DoClone(thread) => assert p != k.nextPid;
      case DoExit =>
        ExitAt(k);
        assert a.tasks[p] == AfterExit(k.tasks, k.current.value, p);
      case DoWait(hint, nohang) =>
      case DoResume =>
      case DoYield =>
    }
  }

  lemma ReadyIsNotCurrent(k: Kernel, p: Pid)
    requires Inv(k) && p in k.running
    ensures k.current != Some(p)
  {
    if k.current.Some? {
      CurrentIsElsewhere(k);
    }
  }

  lemma {:induction false} WaitIsKept(ks: seq<Kernel>, es: seq<Event>, i: nat, m: nat, p: Pid)
    requires IsRun(ks, es) && i <= m < |ks| && p in ks[i].tasks && forall l :: i <= l < m ==> p in ks[l].running
    ensures p in ks[m].tasks && ks[m].tasks[p].wait == ks[i].tasks[p].wait
    decreases m
  {
    hide Next, Inv;
    if i < m {
      WaitIsKept(ks, es, i, m - 1, p);
      RunKeepsInv(ks, es, m - 1);
      ReadyIsNotCurrent(ks[m - 1], p);
      assert Next(ks[m - 1], es[m - 1], ks[m]);
      StepKeepsWait(ks[m - 1], es[m - 1], ks[m], p);
    }
  }

  lemma SleeperIsLive(k: Kernel, p: Pid)
    requires Inv(k) && p in k.tasks && k.tasks[p].state == Interruptible
    ensures !k.tasks[p].exited && k.current != Some(p)
  {
    hide Placed, Sound;
  }

  /** The exit of an awaited child puts the sleeper on the processor or in the running list, still inside its wait4. */
  lemma WokenIsReady(k: Kernel, k': Kernel, p: Pid)
    requires Inv(k) && Next(k, DoExit, k') && p in k.tasks && k.tasks[p].state == Interruptible && k.tasks[p].wait.Some?
    requires k.current.Some? && k.current.value in k.tasks[p].wait.value.blobs
    ensures p in k'.tasks && k'.tasks[p].wait == k.tasks[p].wait
    ensures k'.current == Some(p) || p in k'.running
  {
    WakesExactlyOnExit(k, DoExit, k', p);
    StepKeepsInv(k, DoExit, k');
    SleeperIsLive(k, p);
    StepKeepsWait(k, DoExit, k', p);
    StepAtTask(k, DoExit, k', p);
    var a := Acted(k, DoExit);
    TrapMovesNoTask(a);
    hide Inv, Linked, Acted, Trap;
    TrapRotates(a);
    QueueMembers(a, p);
    assert p in Queue(a);
  }

  /**
    No wake-up is lost: when a child that a blocked wait4 waits for exits, the waiter is dispatched after at most as
    many traps as there are ready tasks, and its wait4 then returns the pid of an exited child of its own.
   */
  lemma WokenReturns(ks: seq<Kernel>, es: seq<Event>, i: nat, j: nat, p: Pid) returns (m: nat)
    requires IsRun(ks, es) && i < j < |ks| && es[i] == DoExit
    requires p in ks[i].tasks && ks[i].tasks[p].state == Interruptible && ks[i].tasks[p].wait.Some?
    requires ks[i].current.Some? && ks[i].current.value in ks[i].tasks[p].wait.value.blobs
    requires TrapCount(ks, es, i + 1, j) >= |ks[i + 1].running|
    ensures i < m <= j && ks[m].current == Some(p) && TrapCount(ks, es, i + 1, m) <= |ks[i + 1].running|
    ensures Offered(ks[m], DoResume) && Reapable(ks[m].tasks, ks[m].registered, p, Answer(ks[m], DoResume))
  {
    hide Next, Inv;
    RunKeepsInv(ks, es, i);
    assert Next(ks[i], es[i], ks[i + 1]);
    WokenIsReady(ks[i], ks[i + 1], p);
    if ks[i + 1].current == Some(p) {
      m := i + 1;
    } else {
      var n :| 0 <= n < |ks[i + 1].running| && ks[i + 1].running[n] == p;
      m := DispatchedInTurn(ks, es, i + 1, j, n);
      WaitIsKept(ks, es, i + 1, m, p);
    }
    RunKeepsInv(ks, es, m);
    ResumeKeepsInv(ks[m]);
  }
}
