/**
  What clone and wait4 promise a program, in the words of their arguments: whose child a clone is, for ever, and which
  children a wait4 answers for.
 */
module WaitRuns {
  import opened Collections
  import opened Scheduler
  import opened SchedulerRuns

  // ---- families ----

  /** The clone is a new task, registered and ready; its parent is the caller, and so is its thread group if it asks. */
  lemma CloneIsChild(k: Kernel, thread: bool, k': Kernel) returns (c: Pid)
    requires Inv(k) && Next(k, DoClone(thread), k')
    ensures c !in k.tasks && c in k'.tasks && k'.tasks == k.tasks[c := k'.tasks[c]]
    ensures k'.tasks[c].ppid == k.current.value != c
    ensures k'.tasks[c].tgid == if thread then k.current.value else c
    ensures !k'.tasks[c].exited && k'.tasks[c].state == Running && k'.tasks[c].wait == None && k'.tasks[c].waiters == []
    ensures c == k.nextPid && k'.registered == k.registered + [c] && k'.running == k.running + [c]
  {
    c := k.nextPid;
    CurrentIsElsewhere(k);
  }

  /** No step changes a task's parent or thread group, and only clone makes tasks. */
  lemma StepKeepsFamily(k: Kernel, e: Event, k': Kernel, p: Pid)
    requires Inv(k) && Next(k, e, k') && p in k.tasks
    ensures p in k'.tasks && k'.tasks[p].ppid == k.tasks[p].ppid && k'.tasks[p].tgid == k.tasks[p].tgid
  {
    hide Placed, Stated, WaitsSound, QueuesSound, SleepersWait, ReapedOnce, Trap, Trapping;
    var a := Acted(k, e);
    if Yields(k, e) {
      TrapMovesNoTask(a);
    }
    match e {
      case DoClone(thread) => assert p != k.nextPid;
      case DoExit =>
        ExitAt(k);
        assert a.tasks[p] == AfterExit(k.tasks, k.current.value, p);
      case DoWait(hint, nohang) =>
      case DoResume =>
      case DoYield =>
    }
  }

  /** Parent and thread group of a task are the same in every later state of a run. */
  lemma {:induction false} FamilyNeverChanges(ks: seq<Kernel>, es: seq<Event>, i: nat, j: nat, p: Pid)
    requires IsRun(ks, es) && i <= j < |ks| && p in ks[i].tasks
    ensures p in ks[j].tasks && ks[j].tasks[p].ppid == ks[i].tasks[p].ppid && ks[j].tasks[p].tgid == ks[i].tasks[p].tgid
    decreases j
  {
    hide Inv, Next;
    if i < j {
      FamilyNeverChanges(ks, es, i, j - 1, p);
      RunKeepsInv(ks, es, j - 1);
      assert Next(ks[j - 1], es[j - 1], ks[j]);
      StepKeepsFamily(ks[j - 1], es[j - 1], ks[j], p);
    }
  }

  /** What a hint asks for among given tasks does not change either. */
  lemma AskedNeverChanges(ks: seq<Kernel>, es: seq<Event>, i: nat, j: nat, me: Pid, hint: int, p: Pid)
    requires IsRun(ks, es) && i <= j < |ks| && p in ks[i].tasks
    ensures Asked(ks[j].tasks, me, hint, p) <==> Asked(ks[i].tasks, me, hint, p)
  {
    hide IsRun;
    FamilyNeverChanges(ks, es, i, j, p);
  }

  // ---- states ----

  /** The state of a task changes in three ways: its exit, its own sleep in wait4, and a wake-up by an exit. */
  lemma StateMoves(k: Kernel, e: Event, k': Kernel, p: Pid)
    requires Inv(k) && Next(k, e, k') && p in k.tasks
    ensures p in k'.tasks
    ensures var s, s' := k.tasks[p].state, k'.tasks[p].state;
      s' == s
      || (s == Running && s' == Exiting && e == DoExit && k.current == Some(p))
      || (s == Running && s' == Interruptible && e.DoWait? && k.current == Some(p))
      || (s == Interruptible && s' == Running && e == DoExit && k.current.Some? && k.current.value != p)
  {
    StepAtTask(k, e, k', p);
    if k.current == Some(p) { CurrentIsElsewhere(k); }
    hide Next, Sleeps, Linked;
  }

  // ---- which children a wait4 is for ----

  lemma NumberedIn(k: Kernel)
    requires Inv(k)
    ensures Distinct(k.registered) && forall p :: p in k.registered ==> p in k.tasks
  {
  }

  /**
    A wait4 that returns at once: -1 exactly if no registered child is asked for, a pid exactly if one has exited that
    is asked for, and then the first of those; zero otherwise, and then only with `nohang`.
   */
  lemma PromptAnswer(k: Kernel, hint: int, nohang: bool, k': Kernel)
    requires Inv(k) && Next(k, DoWait(hint, nohang), k') && !Sleeps(k, hint, nohang)
    ensures Prompt(k, k.current.value, hint, nohang, Answer(k, DoWait(hint, nohang)))
  {
    NumberedIn(k);
    PromptMeans(k, k.current.value, hint, nohang);
    hide Prompt, ScanChildren;
  }

  ghost predicate LiveReached(k: Kernel, me: Pid, hint: int, i: nat)
    requires i < |k.registered|
  {
    Reached(k.tasks, k.registered, me, hint, i) && !k.tasks[k.registered[i]].exited
  }

  /** The first registered task that is asked for has not exited. */
  ghost predicate FirstIsLive(k: Kernel, me: Pid, hint: int) {
    exists i :: 0 <= i < |k.registered| && LiveReached(k, me, hint, i)
  }

  /** A wait4 sleeps exactly if it may and the first child that is asked for has not exited. */
  lemma SleepsOnlyIfAsked(k: Kernel, hint: int, nohang: bool)
    requires Inv(k) && CanAct(k)
    ensures Sleeps(k, hint, nohang) <==> !nohang && FirstIsLive(k, k.current.value, hint)
  {
    var me := k.current.value;
    NumberedIn(k);
    ScanMeans(k, me, hint, nohang);
    hide ScanChildren, Reached;
    var s := ScanChildren(k, me, hint, nohang);
    if s.blobs != [] {
      var b := s.blobs[0];
      assert b in s.blobs;
      var i :| 0 <= i < |k.registered| && k.registered[i] == b;
      assert LiveReached(k, me, hint, i);
    }
  }

  /** Whatever this pending wait4 may answer is asked for. */
  ghost predicate AllAsked(tasks: map<Pid, Task>, me: Pid, hint: int, w: Wait) {
    (forall b :: b in w.blobs ==> Asked(tasks, me, hint, b)) && (w.ret > 0 ==> Asked(tasks, me, hint, w.ret))
  }

  lemma SleepKeepsAsked(tasks: map<Pid, Task>, t: map<Pid, Task>, me: Pid, w: Wait, hint: int)
    requires t.Keys == tasks.Keys && forall q :: q in tasks ==> t[q] == AfterSleep(tasks, me, w, q)
    ensures forall p :: Asked(t, me, hint, p) <==> Asked(tasks, me, hint, p)
    ensures forall p :: p in tasks ==> t[p].exited == tasks[p].exited
    ensures forall p :: p in tasks && me !in tasks[p].waiters ==> (me in t[p].waiters <==> p in w.blobs)
  {
    forall p | p in tasks
      ensures t[p].ppid == tasks[p].ppid && t[p].tgid == tasks[p].tgid && t[p].exited == tasks[p].exited
      ensures me !in tasks[p].waiters ==> (me in t[p].waiters <==> p in w.blobs)
    {
      assert t[p] == AfterSleep(tasks, me, w, p);
    }
  }

  lemma SleepersTasks(k: Kernel, hint: int, nohang: bool, k': Kernel)
    requires Inv(k) && Next(k, DoWait(hint, nohang), k') && Sleeps(k, hint, nohang)
    ensures
      var me := k.current.value;
      var s := ScanChildren(k, me, hint, nohang);
      var w := Wait(s.ret, s.blobs);
      && me in k.tasks && k.tasks[me].wait.None? && k'.tasks.Keys == k.tasks.Keys && k'.tasks[me].wait == Some(w)
      && forall q :: q in k.tasks ==> k'.tasks[q] == AfterSleep(k.tasks, me, w, q)
  {
    hide Inv, ScanChildren, Trap, Trapping, Linked;
    var me := k.current.value;
    var s := ScanChildren(k, me, hint, nohang);
    var a := Sleep(k, Wait(s.ret, s.blobs));
    assert a == Acted(k, DoWait(hint, nohang));
    TrapMovesNoTask(a);
    assert a.tasks[me] == AfterSleep(k.tasks, me, Wait(s.ret, s.blobs), me);
  }

  lemma QueuesOf(k: Kernel)
    requires Inv(k)
    ensures QueuesSound(k.tasks)
  {
  }

  /** A wait4 that sleeps leaves entries with live children that are asked for, and no others. */
  lemma SleeperAsked(k: Kernel, hint: int, nohang: bool, k': Kernel)
    requires Inv(k) && Next(k, DoWait(hint, nohang), k') && Sleeps(k, hint, nohang)
    ensures var me := k.current.value;
      && me in k'.tasks && k'.tasks[me].wait.Some? && AllAsked(k'.tasks, me, hint, k'.tasks[me].wait.value)
      && (forall c :: c in k'.tasks && me in k'.tasks[c].waiters ==>
            Asked(k'.tasks, me, hint, c) && !k'.tasks[c].exited && c in k'.tasks[me].wait.value.blobs)
  {
    var me := k.current.value;
    hide Inv, Next, Sleeps, Asked, AfterSleep, ScanChildren;
    SleepersTasks(k, hint, nohang, k');
    var s := ScanChildren(k, me, hint, nohang);
    var w := Wait(s.ret, s.blobs);
    NumberedIn(k);
    ScanMeans(k, me, hint, nohang);
    QueuesOf(k);
    IdleTaskIsInNoQueue(k.tasks, me);
    SleepKeepsAsked(k.tasks, k'.tasks, me, w, hint);
  }

  // ---- over runs ----

  /** A pending wait4 stays as it is until its task goes on with it. */
  lemma {:induction false} PendingStays(ks: seq<Kernel>, es: seq<Event>, i: nat, m: nat, me: Pid)
    requires IsRun(ks, es) && i <= m < |ks| && me in ks[i].tasks && ks[i].tasks[me].wait.Some?
    requires forall l :: i <= l < m && es[l] == DoResume ==> ks[l].current != Some(me)
    ensures me in ks[m].tasks && ks[m].tasks[me].wait == ks[i].tasks[me].wait
    decreases m
  {
    hide Next, Inv;
    if i < m {
      PendingStays(ks, es, i, m - 1, me);
      RunKeepsInv(ks, es, m - 1);
      assert Next(ks[m - 1], es[m - 1], ks[m]);
      NextOffers(ks[m - 1], es[m - 1], ks[m]);
      StepKeepsWait(ks[m - 1], es[m - 1], ks[m], me);
    }
  }

  lemma {:induction false} FirstExitedIsAmong(tasks: map<Pid, Task>, blobs: seq<Pid>)
    ensures var r := FirstExited(tasks, blobs); r == 0 || r in blobs
  {
    if blobs != [] {
      FirstExitedIsAmong(tasks, blobs[1..]);
    }
  }

  lemma ResultIsAsked(tasks: map<Pid, Task>, me: Pid, hint: int, w: Wait)
    requires AllAsked(tasks, me, hint, w) && Result(tasks, w) > 0
    ensures Asked(tasks, me, hint, Result(tasks, w))
  {
    FirstExitedIsAmong(tasks, w.blobs);
  }

  lemma AllAskedStays(ks: seq<Kernel>, es: seq<Event>, i: nat, j: nat, me: Pid, hint: int, w: Wait)
    requires IsRun(ks, es) && i <= j < |ks| && AllAsked(ks[i].tasks, me, hint, w)
    ensures AllAsked(ks[j].tasks, me, hint, w)
  {
    hide IsRun;
    forall p | Asked(ks[i].tasks, me, hint, p) ensures Asked(ks[j].tasks, me, hint, p) {
      AskedNeverChanges(ks, es, i, j, me, hint, p);
    }
  }

  /** The answer of a wait4 that slept, whenever it comes, is a child that its hint asked for and that has exited. */
  lemma LateAnswer(ks: seq<Kernel>, es: seq<Event>, i: nat, m: nat, hint: int, nohang: bool)
    requires IsRun(ks, es) && i < m < |es| && es[i] == DoWait(hint, nohang) && es[m] == DoResume
    requires Offered(ks[i], es[i]) && Sleeps(ks[i], hint, nohang) && ks[m].current == ks[i].current
    requires forall l :: i < l < m && es[l] == DoResume ==> ks[l].current != ks[i].current
    ensures Offered(ks[m], es[m])
    ensures var r, me := Answer(ks[m], DoResume), ks[i].current.value;
      && r > 0 && Asked(ks[m].tasks, me, hint, r) && ks[m].tasks[r].exited && r in ks[m].registered
  {
    hide Next, Inv, Sleeps, Asked, AllAsked, Result;
    var me := ks[i].current.value;
    assert Next(ks[i], es[i], ks[i + 1]) && Next(ks[m], es[m], ks[m + 1]);
    RunKeepsInv(ks, es, i);
    RunKeepsInv(ks, es, m);
    NextOffers(ks[m], es[m], ks[m + 1]);
    SleeperAsked(ks[i], hint, nohang, ks[i + 1]);
    PendingStays(ks, es, i + 1, m, me);
    var w := ks[m].tasks[me].wait.value;
    AllAskedStays(ks, es, i + 1, m, me, hint, w);
    ResumeKeepsInv(ks[m]);
    ResultIsAsked(ks[m].tasks, me, hint, w);
  }

  /** A registered task stays registered until a wait4 answers it. */
  lemma StepKeepsRegistered(k: Kernel, e: Event, k': Kernel, p: Pid)
    requires Inv(k) && Next(k, e, k') && p in k.registered && Answer(k, e) != p
    ensures p in k'.registered
  {
    hide Placed, Stated, WaitsSound, SleepersWait, Trap, Trapping, Result, ScanChildren;
    var a := Acted(k, e);
    if Yields(k, e) {
      TrapMovesNoTask(a);
    }
    FilterOther(k.registered, Answer(k, e));
  }

  lemma {:induction false} RegisteredUntilAnswered(ks: seq<Kernel>, es: seq<Event>, i: nat, j: nat, p: Pid)
    requires IsRun(ks, es) && i <= j < |ks| && p in ks[i].registered
    requires forall l :: i <= l < j ==> Offered(ks[l], es[l]) && Answer(ks[l], es[l]) != p
    ensures p in ks[j].registered
    decreases j
  {
    hide Next, Inv, Answer;
    if i < j {
      RegisteredUntilAnswered(ks, es, i, j - 1, p);
      RunKeepsInv(ks, es, j - 1);
      assert Next(ks[j - 1], es[j - 1], ks[j]);
      StepKeepsRegistered(ks[j - 1], es[j - 1], ks[j], p);
    }
  }

  /**
    From a clone to the wait for it: until its child has been answered for, a wait4 of the cloner for any child never
    answers -1, whatever happens in between.
   */
  lemma ClonerFindsItsChild(ks: seq<Kernel>, es: seq<Event>, i: nat, j: nat, thread: bool, nohang: bool)
    requires IsRun(ks, es) && i < j < |es| && es[i] == DoClone(thread) && es[j] == DoWait(-1, nohang)
    requires Offered(ks[i], es[i]) && ks[j].current == ks[i].current
    requires forall l :: i < l < j ==> Offered(ks[l], es[l]) && Answer(ks[l], es[l]) != ks[i].nextPid
    ensures Offered(ks[j], es[j]) && Answer(ks[j], es[j]) != -1
    ensures ks[i].nextPid in ks[j].registered && Asked(ks[j].tasks, ks[j].current.value, -1, ks[i].nextPid)
  {
    hide Next, Inv, Sleeps;
    var me := ks[i].current.value;
    assert Next(ks[i], es[i], ks[i + 1]) && Next(ks[j], es[j], ks[j + 1]);
    RunKeepsInv(ks, es, i);
    RunKeepsInv(ks, es, j);
    NextOffers(ks[j], es[j], ks[j + 1]);
    var c := CloneIsChild(ks[i], thread, ks[i + 1]);
    RegisteredUntilAnswered(ks, es, i + 1, j, c);
    AskedNeverChanges(ks, es, i + 1, j, me, -1, c);
    if !Sleeps(ks[j], -1, nohang) {
      PromptAnswer(ks[j], -1, nohang, ks[j + 1]);
    }
  }
}
