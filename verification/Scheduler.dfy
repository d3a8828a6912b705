/**
  The process kernel as a step system: cooperative scheduling over three lists, exit, clone and wait4.
  A step is everything a task does between two yields. Main results: what every run keeps.
 */
module Scheduler {
  import opened Collections

  type Pid = p: int | 0 < p witness 1

  datatype TaskState = Zombie | Running | Interruptible | Uninterruptible | Exiting

  /** The local state of a `call_wait4` that has yielded: the result so far and its wait blobs, by child. */
  datatype Wait = Wait(ret: int, blobs: seq<Pid>)

  /** A task with its thread group, scheduling state, exit flag, wait queue and pending wait4. */
  datatype Task = Task(
    ppid: Pid, tgid: Pid, state: TaskState, nonStop: TaskState, exited: bool, waiters: seq<Pid>, wait: Option<Wait>)

  /** `reaped` records every pid that wait4 has returned; the idle task is `current == None`. */
  datatype Kernel = Kernel(
    tasks: map<Pid, Task>, registered: seq<Pid>, running: seq<Pid>, blocking: seq<Pid>, exiting: seq<Pid>,
    current: Option<Pid>, nextPid: Pid, reaped: seq<Pid>)

  // ---- scheduling ----

  /** The transition table. */
  predicate Allowed(from: TaskState, to: TaskState) {
    || from == to
    || (from == Running && to in {Interruptible, Uninterruptible, Exiting})
    || (from == Interruptible && to in {Running, Uninterruptible})
    || (from == Uninterruptible && to in {Running, Interruptible})
  }

  /** The twelve entries of the table. */
  lemma TableEntries(from: TaskState, to: TaskState)
    ensures Allowed(from, to) <==> (from, to) in {
      (Zombie, Zombie), (Running, Running), (Exiting, Exiting), (Interruptible, Interruptible),
      (Uninterruptible, Uninterruptible), (Running, Interruptible), (Running, Uninterruptible), (Running, Exiting),
      (Interruptible, Running), (Interruptible, Uninterruptible), (Uninterruptible, Running),
      (Uninterruptible, Interruptible)}
  {
  }

  function InState(tasks: map<Pid, Task>, states: set<TaskState>): Pid -> bool {
    (p: Pid) => p in tasks && tasks[p].state in states
  }

  /** `schedule_task`; a zombie would end the process. */
  function Schedule(k: Kernel, p: Pid): Kernel
    requires p in k.tasks
  {
    match k.tasks[p].state
    case Running => k.(running := k.running + [p])
    case Interruptible => k.(blocking := k.blocking + [p])
    case Uninterruptible => k.(blocking := k.blocking + [p])
    case Exiting => k.(exiting := k.exiting + [p])
    case Zombie => k
  }

  /** The current task, unless it is the idle task, goes to the list its state calls for. */
  function Scheduled(k: Kernel): Kernel
    requires k.current.Some? ==> k.current.value in k.tasks
  {
    if k.current.Some? then Schedule(k, k.current.value) else k
  }

  /** `process_blocking_list`: woken and exiting tasks leave, in order. */
  function ProcessBlocking(k: Kernel): Kernel {
    k.(blocking := Filter(k.blocking, InState(k.tasks, {Interruptible, Uninterruptible})),
       running := k.running + Filter(k.blocking, InState(k.tasks, {Running})),
       exiting := k.exiting + Filter(k.blocking, InState(k.tasks, {Exiting})))
  }

  /** `process_running_list`: the first task that is still running. */
  function ProcessRunning(k: Kernel): Kernel
    requires forall p :: p in k.running ==> p in k.tasks
    decreases |k.running|
  {
    if k.running == [] then k.(current := None) else
    var p, rest := k.running[0], k.(running := k.running[1..]);
    if k.tasks[p].state == Running then rest.(current := Some(p)) else ProcessRunning(Schedule(rest, p))
  }

  /** `userspace_trap_handler`. */
  function Trap(k: Kernel): Kernel
    requires k.current.Some? ==> k.current.value in k.tasks
    requires forall p :: p in k.running || p in k.blocking ==> p in k.tasks
  {
    var k1 := Scheduled(k);
    var k2 := ProcessBlocking(k1);
    var k3 := k2.(exiting := []);
    assert forall p :: p in k3.running ==> p in k3.tasks by {
      forall p | p in k3.running ensures p in k3.tasks {
        FilterMembers(k1.blocking, InState(k1.tasks, {Running}), p);
      }
    }
    ProcessRunning(k3)
  }

  // ---- the shape between steps ----

  function CurrentSlot(k: Kernel): seq<Pid> {
    if k.current.Some? then [k.current.value] else []
  }

  /** Everything the scheduler can reach. */
  function Slots(k: Kernel): seq<Pid> {
    CurrentSlot(k) + k.running + k.blocking
  }

  predicate Live(k: Kernel, p: Pid) {
    p in k.tasks && !k.tasks[p].exited
  }

  /** Each task that has not exited is in exactly one of current, running and blocking; the others are gone. */
  ghost predicate Placed(k: Kernel) {
    && Distinct(Slots(k)) && k.exiting == []
    && forall p :: p in Slots(k) <==> Live(k, p)
  }

  ghost predicate Stated(k: Kernel) {
    && (forall p :: p in k.tasks && k.tasks[p].exited ==> k.tasks[p].state == Exiting && k.tasks[p].wait.None?)
    && (forall p :: p in k.running || k.current == Some(p) ==> p in k.tasks && k.tasks[p].state == Running)
    && (forall p :: p in k.blocking ==>
          p in k.tasks && k.tasks[p].state in {Running, Interruptible} && k.tasks[p].wait.Some?)
  }

  /** Just before a trap: as between steps, but the current task may have blocked or exited. */
  ghost predicate Trapping(k: Kernel) {
    && Distinct(Slots(k)) && k.exiting == []
    && (forall p :: p in Slots(k) <==> Live(k, p) || k.current == Some(p))
    && (forall p :: k.current == Some(p) ==> p in k.tasks && k.tasks[p].state in {Running, Interruptible, Exiting})
    && (forall p :: k.current == Some(p) ==> (k.tasks[p].state == Exiting <==> k.tasks[p].exited))
    && (forall p :: k.current == Some(p) && k.tasks[p].state == Interruptible ==> k.tasks[p].wait.Some?)
    && (forall p :: p in k.tasks && k.tasks[p].exited ==> k.tasks[p].state == Exiting && k.tasks[p].wait.None?)
    && (forall p :: p in k.running ==> p in k.tasks && k.tasks[p].state == Running)
    && (forall p :: p in k.blocking ==>
          p in k.tasks && k.tasks[p].state in {Running, Interruptible} && k.tasks[p].wait.Some?)
  }

  /** The lists a trap leaves, when the running list holds only running tasks. */
  function Queue(k: Kernel): seq<Pid>
    requires k.current.Some? ==> k.current.value in k.tasks
  {
    var k1 := Scheduled(k);
    k1.running + Filter(k1.blocking, InState(k.tasks, {Running}))
  }

  function Blocked(k: Kernel): seq<Pid>
    requires k.current.Some? ==> k.current.value in k.tasks
  {
    var k1 := Scheduled(k);
    Filter(k1.blocking, InState(k.tasks, {Interruptible, Uninterruptible}))
  }

  lemma QueueIsRunning(k: Kernel)
    requires Trapping(k)
    ensures forall p :: p in Queue(k) ==> p in k.tasks && k.tasks[p].state == Running
  {
    forall p | p in Queue(k) ensures p in k.tasks && k.tasks[p].state == Running {
      var k1 := Scheduled(k);
      FilterMembers(k1.blocking, InState(k.tasks, {Running}), p);
    }
  }

  /** A trap runs the head of the queue and keeps the rest in order. */
  lemma TrapRotates(k: Kernel)
    requires Trapping(k)
    ensures var q := Queue(k);
      Trap(k) == k.(running := if q == [] then [] else q[1..], blocking := Blocked(k), exiting := [],
                    current := if q == [] then None else Some(q[0]))
  {
    QueueIsRunning(k);
    hide Trapping, Filter;
    var k2 := ProcessBlocking(Scheduled(k));
    assert k2.running == Queue(k) && k2.blocking == Blocked(k);
  }

  /** The tasks that are to run after a trap, the dispatched one first. */
  function Order(k: Kernel): seq<Pid> {
    CurrentSlot(k) + k.running
  }

  predicate IsRunning(k: Kernel, p: Pid) {
    p in k.tasks && k.tasks[p].state == Running
  }

  /** From index `m` of `d` on, `x` comes before `y`. */
  ghost predicate Follow(d: seq<Pid>, m: nat, x: Pid, y: Pid) {
    exists a, b :: m <= a < b < |d| && d[a] == x && d[b] == y
  }

  /** A queue of ready tasks with the woken ones at its end. */
  ghost predicate WokenLast(k: Kernel, d: seq<Pid>, m: nat) {
    && m <= |d|
    && (forall p :: p in d[m..] <==> p in k.blocking && IsRunning(k, p))
    && (forall i, j :: 0 <= i < j < |k.blocking| && IsRunning(k, k.blocking[i]) && IsRunning(k, k.blocking[j]) ==>
          Follow(d, m, k.blocking[i], k.blocking[j]))
  }

  lemma FollowBehind(ready: seq<Pid>, w: seq<Pid>, x: nat, y: nat)
    requires x < y < |w|
    ensures Follow(ready + w, |ready|, w[x], w[y])
  {
    var d, a, b := ready + w, |ready| + x, |ready| + y;
    assert d[a] == w[x] && d[b] == w[y];
  }

  lemma QueueHasWokenLast(k: Kernel, ready: seq<Pid>, b: seq<Pid>)
    requires k.blocking <= b && forall p :: p in b && IsRunning(k, p) ==> p in k.blocking
    ensures WokenLast(k, ready + Filter(b, InState(k.tasks, {Running})), |ready|)
  {
    var f, m := InState(k.tasks, {Running}), |ready|;
    var w := Filter(b, f);
    hide Filter, Follow;
    assert (ready + w)[m..] == w;
    forall p ensures p in w <==> p in k.blocking && IsRunning(k, p) {
      FilterMembers(b, f, p);
    }
    forall i, j | 0 <= i < j < |k.blocking| && IsRunning(k, k.blocking[i]) && IsRunning(k, k.blocking[j])
      ensures Follow(ready + w, m, k.blocking[i], k.blocking[j])
    {
      var x, y := FilterKeepsOrder(b, f, i, j);
      FollowBehind(ready, w, x, y);
    }
  }

  /** The lists once the caller is back in its own. */
  lemma ScheduledParts(k: Kernel)
    requires Trapping(k)
    ensures var own := k.current.Some? && IsRunning(k, k.current.value);
      var k1 := Scheduled(k);
      && k1.running == k.running + (if own then [k.current.value] else [])
      && k.blocking <= k1.blocking && (forall p :: p in k1.blocking && IsRunning(k, p) ==> p in k.blocking)
      && Queue(k) == k1.running + Filter(k1.blocking, InState(k.tasks, {Running}))
  {
    hide Filter;
    assert k.running + [] == k.running;
  }

  lemma OrderOf(t: Kernel, q: seq<Pid>)
    requires t.running == if q == [] then [] else q[1..]
    requires t.current == if q == [] then None else Some(q[0])
    ensures Order(t) == q
  {
  }

  lemma DispatchedFirst(k: Kernel)
    requires Trapping(k)
    ensures Order(Trap(k)) == Queue(k)
  {
    TrapRotates(k);
    OrderOf(Trap(k), Queue(k));
  }

  /** The order after a trap: who was ready, then the caller if it still runs, then the woken as they went to sleep. */
  lemma TrapOrder(k: Kernel)
    requires Trapping(k)
    ensures var d := Order(Trap(k));
      var own := k.current.Some? && IsRunning(k, k.current.value);
      && k.running <= d && (own ==> |k.running| < |d| && d[|k.running|] == k.current.value)
      && WokenLast(k, d, |k.running| + if own then 1 else 0)
  {
    ScheduledParts(k);
    DispatchedFirst(k);
    hide Trap, Trapping, Queue, Scheduled, Filter, WokenLast, Order, IsRunning;
    QueueHasWokenLast(k, Scheduled(k).running, Scheduled(k).blocking);
  }

  /** Once the current task is back in its list, the lists hold exactly the live tasks. */
  lemma ScheduledIsPlaced(k: Kernel)
    requires Trapping(k)
    ensures var k1 := Scheduled(k);
      && Distinct(k1.running + k1.blocking)
      && (forall p :: p in k1.running + k1.blocking <==> Live(k, p))
      && (forall p :: p in k1.blocking ==>
        p in k.tasks && k.tasks[p].state in {Running, Interruptible} && k.tasks[p].wait.Some?)
  {
    var k1, c := Scheduled(k), CurrentSlot(k);
    DistinctConcat(c + k.running, k.blocking);
    DistinctConcat(c, k.running);
    DistinctConcat(k1.running, k1.blocking);
    if k.current.Some? {
      var p := k.current.value;
      DistinctConcat(k.running, c);
      DistinctConcat(k.blocking, c);
      assert p in Slots(k);
      assert forall q :: q in Slots(k) <==> q == p || q in k.running || q in k.blocking;
    } else {
      assert forall q :: q in Slots(k) <==> q in k.running || q in k.blocking;
    }
    forall q ensures q in k1.running + k1.blocking <==> Live(k, q) {
      assert q in Slots(k) <==> Live(k, q) || k.current == Some(q);
    }
  }

  lemma FilterSplits(s: seq<Pid>, f: Pid -> bool, g: Pid -> bool, front: seq<Pid>)
    requires Distinct(front + s) && forall p :: p in s ==> !(f(p) && g(p))
    ensures Distinct((front + Filter(s, f)) + Filter(s, g))
  {
    DistinctConcat(front, s);
    FilterDistinct(s, f);
    FilterDistinct(s, g);
    forall p ensures (p in Filter(s, f) <==> p in s && f(p)) && (p in Filter(s, g) <==> p in s && g(p)) {
      FilterMembers(s, f, p);
      FilterMembers(s, g, p);
    }
    DistinctConcat(front, Filter(s, f));
    DistinctConcat(front + Filter(s, f), Filter(s, g));
  }

  /** The queue after a trap is the running tasks, and the blocking list the others. */
  lemma QueueMembers(k: Kernel, p: Pid)
    requires Trapping(k)
    ensures p in Queue(k) <==> Live(k, p) && k.tasks[p].state == Running
    ensures p in Blocked(k) <==> Live(k, p) && k.tasks[p].state == Interruptible
    ensures p in Blocked(k) ==> k.tasks[p].wait.Some?
  {
    var k1 := Scheduled(k);
    ScheduledIsPlaced(k);
    QueueIsRunning(k);
    FilterMembers(k1.blocking, InState(k.tasks, {Running}), p);
    FilterMembers(k1.blocking, InState(k.tasks, {Interruptible, Uninterruptible}), p);
    assert p in k1.running + k1.blocking <==> Live(k, p);
  }

  lemma QueueDistinct(k: Kernel)
    requires Trapping(k)
    ensures Distinct(Queue(k) + Blocked(k))
  {
    ScheduledIsPlaced(k);
    var k1 := Scheduled(k);
    FilterSplits(k1.blocking, InState(k.tasks, {Running}), InState(k.tasks, {Interruptible, Uninterruptible}),
      k1.running);
  }

  lemma TrappingHasCurrent(k: Kernel)
    requires Trapping(k)
    ensures k.current.Some? ==> k.current.value in k.tasks
    ensures forall p :: p in k.running || p in k.blocking ==> p in k.tasks
    ensures forall p :: Live(k, p) ==> p in k.tasks
  {
  }

  lemma LiveStates(k: Kernel)
    requires Trapping(k)
    ensures forall p :: Live(k, p) ==> k.tasks[p].state in {Running, Interruptible}
    ensures forall p :: p in k.tasks && k.tasks[p].exited ==> k.tasks[p].state == Exiting && k.tasks[p].wait.None?
  {
    assert forall p :: Live(k, p) ==> p in Slots(k);
  }

  lemma SplitIsPlaced(k: Kernel, t: Kernel, q: seq<Pid>, b: seq<Pid>)
    requires t == k.(running := if q == [] then [] else q[1..], blocking := b, exiting := [], current := if q == [] then
      None else Some(q[0]))
    requires Slots(t) == q + b && Distinct(q + b)
    requires forall p :: Live(k, p) ==> k.tasks[p].state in {Running, Interruptible}
    requires forall p :: p in k.tasks && k.tasks[p].exited ==> k.tasks[p].state == Exiting && k.tasks[p].wait.None?
    requires forall p :: p in q <==> Live(k, p) && k.tasks[p].state == Running
    requires forall p :: p in b <==> Live(k, p) && k.tasks[p].state == Interruptible
    requires forall p :: p in b ==> p in k.tasks && k.tasks[p].wait.Some?
    ensures Placed(t) && Stated(t)
  {
    forall p ensures p in Slots(t) <==> Live(t, p) {
      assert p in Slots(t) <==> p in q || p in b;
      assert Live(t, p) == Live(k, p);
    }
    forall p | p in t.running || t.current == Some(p) ensures p in t.tasks && t.tasks[p].state == Running {
      assert p in q;
    }
  }

  /** A trap puts every live task in exactly one place and dispatches only a running one. */
  lemma TrapKeepsPlacement(k: Kernel)
    requires Trapping(k)
    ensures Placed(Trap(k)) && Stated(Trap(k))
  {
    hide Queue, Blocked, Trap, Trapping, Live;
    TrappingHasCurrent(k);
    var q, b, t := Queue(k), Blocked(k), Trap(k);
    TrapRotates(k);
    QueueDistinct(k);
    forall p ensures p in q <==> Live(k, p) && k.tasks[p].state == Running
             ensures p in b <==> Live(k, p) && k.tasks[p].state == Interruptible
             ensures p in b ==> k.tasks[p].wait.Some?
    {
      QueueMembers(k, p);
    }
    LiveStates(k);
    assert Slots(t) == q + b;
    SplitIsPlaced(k, t, q, b);
  }

  /** The idle task is dispatched only when no task is running. */
  lemma IdleOnlyWhenNothingRuns(k: Kernel)
    requires Trapping(k)
    ensures Trap(k).current.None? <==> forall p :: Live(k, p) ==> k.tasks[p].state != Running
  {
    hide Queue, Blocked, Trap;
    TrapRotates(k);
    forall p ensures p in Queue(k) <==> Live(k, p) && k.tasks[p].state == Running {
      QueueMembers(k, p);
    }
    if Queue(k) != [] {
      assert Queue(k)[0] in Queue(k);
    }
  }

  // ---- what the tasks are, apart from where they are ----

  predicate IsChild(tasks: map<Pid, Task>, parent: Pid, p: Pid) {
    p in tasks && tasks[p].ppid == parent && p != parent
  }

  /** Pids are handed out in increasing order, and a parent is older than its child; only task 1 is its own parent. */
  ghost predicate Numbered(tasks: map<Pid, Task>, registered: seq<Pid>, nextPid: Pid) {
    && (forall p :: p in tasks ==> p < nextPid && tasks[p].ppid <= p && (tasks[p].ppid == p ==> p == 1))
    && Distinct(registered) && (forall p :: p in registered ==> p in tasks)
  }

  ghost predicate WaitIsSound(tasks: map<Pid, Task>, registered: seq<Pid>, p: Pid)
    requires p in tasks && tasks[p].wait.Some?
  {
    var Wait(ret, blobs) := tasks[p].wait.value;
    && blobs != [] && Distinct(blobs)
    && (forall b :: b in blobs ==> IsChild(tasks, p, b) && b in registered && p in tasks[b].waiters)
    && (ret == 0 || (ret > 0 && IsChild(tasks, p, ret) && ret in registered && tasks[ret].exited))
    && (tasks[p].state == Interruptible ==> forall b :: b in blobs ==> !tasks[b].exited)
    && (tasks[p].state == Running ==> exists b :: b in blobs && tasks[b].exited)
  }

  /** A pending wait4 has an entry with every child it waits for; it sleeps exactly while none of them has exited. */
  ghost predicate WaitsSound(tasks: map<Pid, Task>, registered: seq<Pid>) {
    forall p :: p in tasks && tasks[p].wait.Some? ==> WaitIsSound(tasks, registered, p)
  }

  /** Every entry in a wait queue belongs to a pending wait4 on that child. */
  ghost predicate QueuesSound(tasks: map<Pid, Task>) {
    && (forall c :: c in tasks ==> Distinct(tasks[c].waiters))
    && (forall c, w :: c in tasks && w in tasks[c].waiters ==>
          w in tasks && tasks[w].wait.Some? && c in tasks[w].wait.value.blobs)
  }

  ghost predicate SleepersWait(tasks: map<Pid, Task>) {
    forall p :: p in tasks ==>
      && (tasks[p].state == Interruptible ==> tasks[p].wait.Some?)
      && (tasks[p].wait.Some? ==> tasks[p].state in {Running, Interruptible} && !tasks[p].exited)
  }

  /** What wait4 has returned is exited, unregistered, and was returned once. */
  ghost predicate ReapedOnce(tasks: map<Pid, Task>, registered: seq<Pid>, reaped: seq<Pid>) {
    && Distinct(reaped)
    && (forall r :: r in reaped ==> r in tasks && tasks[r].exited && r !in registered)
  }

  ghost predicate Sound(k: Kernel) {
    && Numbered(k.tasks, k.registered, k.nextPid)
    && WaitsSound(k.tasks, k.registered)
    && QueuesSound(k.tasks)
    && SleepersWait(k.tasks)
    && ReapedOnce(k.tasks, k.registered, k.reaped)
  }

  ghost predicate Inv(k: Kernel) {
    Placed(k) && Stated(k) && Sound(k)
  }

  lemma TrapKeepsSound(k: Kernel)
    requires Trapping(k) && Sound(k)
    ensures Inv(Trap(k))
  {
    TrapKeepsPlacement(k);
    TrapRotates(k);
  }

  /** The first process, registered and ready, with the idle task on the processor. */
  function Boot(): Kernel {
    Kernel(map[1 := Task(1, 1, Running, Zombie, false, [], None)], [1], [1], [], [], None, 2, [])
  }

  lemma BootIsFine()
    ensures Inv(Boot())
    ensures var k := Boot(); k.registered == k.running == [1] && k.blocking == [] && k.current == None && k.nextPid == 2
    ensures var ts := Boot().tasks; ts.Keys == {1} && ts[1].ppid == ts[1].tgid == 1 && ts[1].state == Running
  {
    var k := Boot();
    assert Slots(k) == [1];
  }

  // ---- yield, clone ----

  predicate CanAct(k: Kernel) {
    k.current.Some? && k.current.value in k.tasks && k.tasks[k.current.value].wait.None?
  }

  lemma YieldKeepsInv(k: Kernel)
    requires Inv(k)
    ensures Trapping(k) && Inv(Trap(k))
  {
    TrapKeepsSound(k);
  }

  /** `clone_task`, as far as the kernel is concerned. */
  function Clone(k: Kernel, thread: bool): Kernel
    requires CanAct(k)
  {
    var me, child := k.current.value, k.nextPid;
    var task := Task(me, if thread then me else child, Running, Zombie, false, [], None);
    k.(tasks := k.tasks[child := task], registered := k.registered + [child],
       running := k.running + [child], nextPid := child + 1)
  }

  lemma CloneKeepsPlaced(k: Kernel, thread: bool)
    requires Inv(k) && CanAct(k)
    ensures Placed(Clone(k, thread)) && Stated(Clone(k, thread))
  {
    var k', child := Clone(k, thread), k.nextPid;
    assert child !in k.tasks && !Live(k, child);
    assert child !in Slots(k);
    var c := CurrentSlot(k);
    DistinctConcat(c + k.running, k.blocking);
    DistinctConcat(c + k.running, [child]);
    DistinctConcat(c + (k.running + [child]), k.blocking);
    assert c + (k.running + [child]) == (c + k.running) + [child];
    forall p ensures p in Slots(k') <==> Live(k', p) {
      assert p in Slots(k') <==> p in Slots(k) || p == child;
      assert p in Slots(k) <==> Live(k, p);
    }
  }

  /** A pending wait does not notice a task that did not exist before. */
  lemma WaitIgnoresNewTask(tasks: map<Pid, Task>, registered: seq<Pid>, p: Pid, child: Pid, task: Task)
    requires p in tasks && tasks[p].wait.Some? && WaitIsSound(tasks, registered, p) && child !in tasks
    ensures WaitIsSound(tasks[child := task], registered + [child], p)
  {
  }

  lemma CloneKeepsWaits(k: Kernel, thread: bool)
    requires WaitsSound(k.tasks, k.registered) && QueuesSound(k.tasks) && SleepersWait(k.tasks)
    requires CanAct(k) && k.nextPid !in k.tasks
    ensures var k' := Clone(k, thread);
      WaitsSound(k'.tasks, k'.registered) && QueuesSound(k'.tasks) && SleepersWait(k'.tasks)
  {
    var k', child := Clone(k, thread), k.nextPid;
    forall p | p in k'.tasks && k'.tasks[p].wait.Some? ensures WaitIsSound(k'.tasks, k'.registered, p) {
      WaitIgnoresNewTask(k.tasks, k.registered, p, child, k'.tasks[child]);
    }
  }

  lemma CloneKeepsSound(k: Kernel, thread: bool)
    requires Sound(k) && CanAct(k)
    ensures Sound(Clone(k, thread))
  {
    hide WaitsSound, QueuesSound, SleepersWait;
    DistinctConcat(k.registered, [k.nextPid]);
    CloneKeepsWaits(k, thread);
  }

  lemma CloneKeepsInv(k: Kernel, thread: bool)
    requires Inv(k) && CanAct(k)
    ensures Inv(Clone(k, thread))
  {
    hide Placed, Stated, Sound;
    CloneKeepsPlaced(k, thread);
    CloneKeepsSound(k, thread);
  }

  // ---- exit ----

  /** `raw_task_wake_up` on a task it does not die on. */
  function Woken(t: Task): Task {
    match t.state
    case Interruptible => t.(state := Running)
    case Uninterruptible => t.(nonStop := Running)
    case _ => t
  }

  /** The states `raw_task_wake_up` has a case for. */
  predicate CanWake(t: Task) {
    t.state in {Running, Interruptible} || (t.state == Uninterruptible && t.nonStop in {Running, Interruptible})
  }

  /** `wake_up`: every entry of the queue in turn. */
  function WakeAll(tasks: map<Pid, Task>, queue: seq<Pid>): (r: map<Pid, Task>)
    requires forall w :: w in queue ==> w in tasks
    ensures r.Keys == tasks.Keys
    decreases |queue|
  {
    if queue == [] then tasks else WakeAll(tasks[queue[0] := Woken(tasks[queue[0]])], queue[1..])
  }

  lemma {:induction false} WakeAllAt(tasks: map<Pid, Task>, queue: seq<Pid>, p: Pid)
    requires p in tasks && forall w :: w in queue ==> w in tasks
    ensures WakeAll(tasks, queue)[p] == if p in queue then Woken(tasks[p]) else tasks[p]
    decreases |queue|
  {
    if queue != [] {
      WakeAllAt(tasks[queue[0] := Woken(tasks[queue[0]])], queue[1..], p);
    }
  }

  /** `do_exit` up to its yield. */
  function Exit(k: Kernel): Kernel
    requires CanAct(k) && forall w :: w in k.tasks[k.current.value].waiters ==> w in k.tasks
  {
    var me := k.current.value;
    var marked := k.tasks[me := k.tasks[me].(exited := true)];
    var woken := WakeAll(marked, k.tasks[me].waiters);
    k.(tasks := woken[me := woken[me].(state := Exiting)])
  }

  /** What an exit makes of each task: the caller exits, the sleepers in its queue wake up, no one else changes. */
  function AfterExit(tasks: map<Pid, Task>, me: Pid, p: Pid): Task
    requires me in tasks && p in tasks
  {
    if p == me then tasks[p].(exited := true, state := Exiting)
    else if p in tasks[me].waiters then Woken(tasks[p])
    else tasks[p]
  }

  ghost predicate Exits(tasks: map<Pid, Task>, me: Pid, t: map<Pid, Task>) {
    me in tasks && t.Keys == tasks.Keys && forall p :: p in tasks ==> t[p] == AfterExit(tasks, me, p)
  }

  lemma ExitAt(k: Kernel)
    requires Inv(k) && CanAct(k)
    ensures Exits(k.tasks, k.current.value, Exit(k).tasks)
  {
    var me := k.current.value;
    if me in k.tasks[me].waiters {
      assert false;
    }
    var marked := k.tasks[me := k.tasks[me].(exited := true)];
    forall p | p in k.tasks ensures Exit(k).tasks[p] == AfterExit(k.tasks, me, p) {
      WakeAllAt(marked, k.tasks[me].waiters, p);
    }
  }

  /** A pending wait stays sound when `me` exits and `p` is woken exactly if it waits for `me`. */
  lemma WaitSeesExit(tasks: map<Pid, Task>, t: map<Pid, Task>, registered: seq<Pid>, me: Pid, p: Pid)
    requires me in tasks && p in tasks && t.Keys == tasks.Keys && p != me
    requires tasks[p].wait.Some? && WaitIsSound(tasks, registered, p) && tasks[p].state in {Running, Interruptible}
    requires me in tasks[p].wait.value.blobs <==> p in tasks[me].waiters
    requires forall q :: q in tasks ==>
      t[q].ppid == tasks[q].ppid && t[q].waiters == tasks[q].waiters && t[q].exited == (tasks[q].exited || q == me)
    requires t[p] == if p in tasks[me].waiters then Woken(tasks[p]) else tasks[p]
    ensures t[p].wait.Some? && WaitIsSound(t, registered, p)
  {
  }

  lemma ExitKeepsWaits(tasks: map<Pid, Task>, registered: seq<Pid>, me: Pid, t: map<Pid, Task>)
    requires Exits(tasks, me, t) && tasks[me].wait.None?
    requires WaitsSound(tasks, registered) && QueuesSound(tasks) && SleepersWait(tasks)
    ensures WaitsSound(t, registered)
  {
    forall p | p in t && t[p].wait.Some? ensures WaitIsSound(t, registered, p) {
      assert p in tasks && tasks[p].wait.Some? && WaitIsSound(tasks, registered, p);
      WaitSeesExit(tasks, t, registered, me, p);
    }
  }

  /** Wait queues and pending waits are all that QueuesSound is about. */
  lemma QueuesDependOnWaits(tasks: map<Pid, Task>, t: map<Pid, Task>)
    requires QueuesSound(tasks) && t.Keys == tasks.Keys
    requires forall p :: p in tasks ==> t[p].waiters == tasks[p].waiters && t[p].wait == tasks[p].wait
    ensures QueuesSound(t)
  {
  }

  lemma ExitKeepsQueues(tasks: map<Pid, Task>, me: Pid, t: map<Pid, Task>)
    requires Exits(tasks, me, t) && tasks[me].wait.None? && QueuesSound(tasks) && SleepersWait(tasks)
    ensures QueuesSound(t) && SleepersWait(t)
  {
    hide QueuesSound;
    assert forall p :: p in tasks ==> t[p].waiters == tasks[p].waiters && t[p].wait == tasks[p].wait;
    QueuesDependOnWaits(tasks, t);
  }

  lemma ExitKeepsNumbers(tasks: map<Pid, Task>, registered: seq<Pid>, reaped: seq<Pid>, nextPid: Pid, me: Pid,
                         t: map<Pid, Task>)
    requires Exits(tasks, me, t) && Numbered(tasks, registered, nextPid) && ReapedOnce(tasks, registered, reaped)
    ensures Numbered(t, registered, nextPid) && ReapedOnce(t, registered, reaped)
  {
  }

  lemma ExitKeepsSound(k: Kernel)
    requires Inv(k) && CanAct(k)
    ensures Sound(Exit(k))
  {
    var me, t := k.current.value, Exit(k).tasks;
    ExitAt(k);
    hide Placed, Stated, Numbered, ReapedOnce, WaitsSound, QueuesSound, SleepersWait, Exits, WakeAll;
    ExitKeepsWaits(k.tasks, k.registered, me, t);
    ExitKeepsQueues(k.tasks, me, t);
    ExitKeepsNumbers(k.tasks, k.registered, k.reaped, k.nextPid, me, t);
  }

  lemma CurrentIsElsewhere(k: Kernel)
    requires Placed(k) && k.current.Some?
    ensures k.current.value !in k.running && k.current.value !in k.blocking && Live(k, k.current.value)
  {
    var c := CurrentSlot(k);
    DistinctConcat(c + k.running, k.blocking);
    DistinctConcat(c, k.running);
    assert k.current.value in c && k.current.value in Slots(k);
  }

  lemma ExitTraps(k: Kernel, t: map<Pid, Task>)
    requires Placed(k) && Stated(k) && CanAct(k) && Exits(k.tasks, k.current.value, t)
    ensures Trapping(k.(tasks := t))
  {
    var me, k' := k.current.value, k.(tasks := t);
    assert Slots(k') == Slots(k);
    forall p | p in k.tasks && p != me
      ensures t[p].exited == k.tasks[p].exited && t[p].wait == k.tasks[p].wait
      ensures k.tasks[p].state in {Running, Exiting} ==> t[p].state == k.tasks[p].state
      ensures k.tasks[p].state == Interruptible ==> t[p].state in {Running, Interruptible}
    {
      assert t[p] == AfterExit(k.tasks, me, p);
    }
    assert t[me] == AfterExit(k.tasks, me, me);
    CurrentIsElsewhere(k);
    hide Exits;
    forall p ensures p in Slots(k') <==> Live(k', p) || k'.current == Some(p) {
      assert p in Slots(k) <==> Live(k, p);
    }
  }

  lemma ExitKeepsInv(k: Kernel)
    requires Inv(k) && CanAct(k)
    ensures Trapping(Exit(k)) && Inv(Trap(Exit(k)))
  {
    hide Placed, Stated, Numbered, WaitsSound, ReapedOnce, Exits, Trapping;
    ExitAt(k);
    ExitTraps(k, Exit(k).tasks);
    ExitKeepsSound(k);
    TrapKeepsSound(Exit(k));
  }

  /** Whoever an exit wakes is in a state that `raw_task_wake_up` has a case for. */
  lemma WakeNeverDies(k: Kernel)
    requires Inv(k) && CanAct(k)
    ensures k.tasks[k.current.value].state == Running
    ensures forall w :: w in k.tasks[k.current.value].waiters ==>
      w in k.tasks && w != k.current.value && CanWake(k.tasks[w])
  {
    hide WaitsSound, Numbered;
  }

  // ---- wait4 ----

  /** Whether the scan of `call_wait4` waits for `p`. */
  predicate Wanted(tasks: map<Pid, Task>, me: Pid, hint: int, p: Pid) {
    && IsChild(tasks, me, p)
    && (if hint == -1 then true
        else if hint < -1 then tasks[p].tgid == -hint
        else if hint == 0 then tasks[p].tgid == me
        else p == hint)
  }

  function WantedBy(tasks: map<Pid, Task>, me: Pid, hint: int): Pid -> bool {
    (p: Pid) => Wanted(tasks, me, hint, p)
  }

  /** The candidates before the first one that has exited. */
  function LivePrefix(tasks: map<Pid, Task>, c: seq<Pid>): seq<Pid> {
    if c == [] || c[0] !in tasks || tasks[c[0]].exited then [] else [c[0]] + LivePrefix(tasks, c[1..])
  }

  datatype Scan = Scan(ret: int, blobs: seq<Pid>)

  /**
    The scan of the global task list: it stops at the first exited child and leaves a blob with each live one before
    it.
   */
  function ScanChildren(k: Kernel, me: Pid, hint: int, nohang: bool): Scan {
    var c := Filter(k.registered, WantedBy(k.tasks, me, hint));
    var live := LivePrefix(k.tasks, c);
    var found := |live| < |c| && c[|live|] in k.tasks;
    Scan(if c == [] then -1 else if found then c[|live|] else 0, if nohang then [] else live)
  }

  lemma {:induction false} LivePrefixFacts(tasks: map<Pid, Task>, c: seq<Pid>)
    ensures var l := LivePrefix(tasks, c);
      && |l| <= |c| && l == c[..|l|]
      && (forall b :: b in l ==> b in tasks && !tasks[b].exited)
      && (|l| < |c| && c[|l|] in tasks ==> tasks[c[|l|]].exited)
  {
    if c != [] && c[0] in tasks && !tasks[c[0]].exited {
      LivePrefixFacts(tasks, c[1..]);
    }
  }

  /** What a wait4 that returns `ret` has found: a registered child of `me` that has exited. */
  ghost predicate Reapable(tasks: map<Pid, Task>, registered: seq<Pid>, me: Pid, ret: int) {
    ret > 0 && IsChild(tasks, me, ret) && ret in registered && tasks[ret].exited
  }

  lemma ScanFacts(k: Kernel, me: Pid, hint: int, nohang: bool)
    requires Distinct(k.registered)
    ensures var s := ScanChildren(k, me, hint, nohang);
      && (s.ret > 0 ==> Reapable(k.tasks, k.registered, me, s.ret))
      && (s.blobs != [] ==> s.ret >= 0) && Distinct(s.blobs)
      && (forall b :: b in s.blobs ==> IsChild(k.tasks, me, b) && b in k.registered && !k.tasks[b].exited)
  {
    var f := WantedBy(k.tasks, me, hint);
    var c := Filter(k.registered, f);
    var l := LivePrefix(k.tasks, c);
    LivePrefixFacts(k.tasks, c);
    FilterDistinct(k.registered, f);
    forall b ensures b in c <==> b in k.registered && f(b) {
      FilterMembers(k.registered, f, b);
    }
    if |l| < |c| { assert c[|l|] in c; }
    forall b | b in l ensures b in c {
      assert b in c[..|l|];
    }
  }

  // ---- which children a wait4 is for, in the words of its arguments ----

  /** The task `p` is another task that `me` made, and of the kind that the hint asks for. */
  ghost predicate Asked(tasks: map<Pid, Task>, me: Pid, hint: int, p: Pid) {
    && p in tasks && p != me && tasks[p].ppid == me
    && (hint > 0 ==> p == hint)
    && (hint == 0 ==> tasks[p].tgid == me)
    && (hint < -1 ==> tasks[p].tgid == -hint)
  }

  lemma WantedIsAsked(tasks: map<Pid, Task>, me: Pid, hint: int, p: Pid)
    ensures Wanted(tasks, me, hint, p) <==> Asked(tasks, me, hint, p)
  {
  }

  /** Entry `i` of the list is asked for, and no entry before it that is asked for has exited. */
  ghost predicate Reached(tasks: map<Pid, Task>, q: seq<Pid>, me: Pid, hint: int, i: nat)
    requires i < |q|
  {
    Asked(tasks, me, hint, q[i]) && forall j :: 0 <= j < i && Asked(tasks, me, hint, q[j]) ==> !tasks[q[j]].exited
  }

  /** What the scan waits for among the tasks of a list, and what it passes before it finds one that has exited. */
  ghost function Candidates(tasks: map<Pid, Task>, q: seq<Pid>, me: Pid, hint: int): seq<Pid> {
    Filter(q, WantedBy(tasks, me, hint))
  }

  ghost function Passed(tasks: map<Pid, Task>, q: seq<Pid>, me: Pid, hint: int): seq<Pid> {
    LivePrefix(tasks, Candidates(tasks, q, me, hint))
  }

  predicate NotExited(tasks: map<Pid, Task>, p: Pid) {
    p in tasks && !tasks[p].exited
  }

  lemma {:induction false} LivePrefixAppend(tasks: map<Pid, Task>, c: seq<Pid>, x: Pid)
    ensures var l := LivePrefix(tasks, c);
      LivePrefix(tasks, c + [x]) == if |l| == |c| && NotExited(tasks, x) then l + [x] else l
  {
    if c != [] {
      assert (c + [x])[1..] == c[1..] + [x];
      LivePrefixAppend(tasks, c[1..], x);
      LivePrefixFacts(tasks, c[1..]);
    } else {
      assert (c + [x])[1..] == [];
    }
  }

  lemma CandidatesMeans(tasks: map<Pid, Task>, q: seq<Pid>, me: Pid, hint: int)
    ensures forall p :: p in Candidates(tasks, q, me, hint) <==> p in q && Asked(tasks, me, hint, p)
  {
    forall p ensures p in Candidates(tasks, q, me, hint) <==> p in q && Asked(tasks, me, hint, p) {
      FilterMembers(q, WantedBy(tasks, me, hint), p);
      WantedIsAsked(tasks, me, hint, p);
    }
  }

  /** The scan passes everything exactly if nothing that is asked for has exited. */
  lemma PassesAll(tasks: map<Pid, Task>, q: seq<Pid>, me: Pid, hint: int)
    ensures |Passed(tasks, q, me, hint)| == |Candidates(tasks, q, me, hint)| <==>
      forall p :: p in q && Asked(tasks, me, hint, p) ==> !tasks[p].exited
  {
    var c, l := Candidates(tasks, q, me, hint), Passed(tasks, q, me, hint);
    CandidatesMeans(tasks, q, me, hint);
    LivePrefixFacts(tasks, c);
    hide Candidates, LivePrefix;
    if |l| < |c| {
      assert c[|l|] in c;
    } else {
      assert l == c;
    }
  }

  /** One more task at the end of the list. */
  lemma OneMore(tasks: map<Pid, Task>, q: seq<Pid>, me: Pid, hint: int)
    requires q != []
    ensures var n := |q| - 1;
      var c, l := Candidates(tasks, q[..n], me, hint), Passed(tasks, q[..n], me, hint);
      && Candidates(tasks, q, me, hint) == c + (if Asked(tasks, me, hint, q[n]) then [q[n]] else [])
      && Passed(tasks, q, me, hint) ==
           l + (if |l| == |c| && Asked(tasks, me, hint, q[n]) && !tasks[q[n]].exited then [q[n]] else [])
      && |l| <= |c| && l == c[..|l|]
  {
    var n := |q| - 1;
    var c := Candidates(tasks, q[..n], me, hint);
    WantedIsAsked(tasks, me, hint, q[n]);
    LivePrefixAppend(tasks, c, q[n]);
    LivePrefixFacts(tasks, c);
    assert c + [] == c;
    hide LivePrefix;
  }

  /** The scan passes the live tasks that it reaches. */
  lemma {:induction false} PassedMeans(tasks: map<Pid, Task>, q: seq<Pid>, me: Pid, hint: int, i: nat)
    requires i < |q| && Distinct(q)
    ensures q[i] in Passed(tasks, q, me, hint) <==> Reached(tasks, q, me, hint, i) && !tasks[q[i]].exited
    decreases |q|
  {
    hide Candidates, Passed;
    var n := |q| - 1;
    var front := q[..n];
    var c, l := Candidates(tasks, front, me, hint), Passed(tasks, front, me, hint);
    OneMore(tasks, q, me, hint);
    CandidatesMeans(tasks, front, me, hint);
    PassesAll(tasks, front, me, hint);
    if i < n {
      PassedMeans(tasks, front, me, hint, i);
      assert front[i] == q[i] != q[n];
      assert Reached(tasks, front, me, hint, i) <==> Reached(tasks, q, me, hint, i);
    } else {
      assert q[n] !in front;
      assert forall p :: p in l ==> p in c;
      assert (forall p :: p in front && Asked(tasks, me, hint, p) ==> !tasks[p].exited) <==>
        forall k :: 0 <= k < n && Asked(tasks, me, hint, q[k]) ==> !tasks[q[k]].exited;
    }
  }

  /** The one that stops the scan is the first that is asked for and has exited. */
  lemma {:induction false} FoundMeans(tasks: map<Pid, Task>, q: seq<Pid>, me: Pid, hint: int) returns (i: nat)
    requires |Passed(tasks, q, me, hint)| < |Candidates(tasks, q, me, hint)|
    ensures i < |q| && Reached(tasks, q, me, hint, i) && tasks[q[i]].exited
    ensures q[i] == Candidates(tasks, q, me, hint)[|Passed(tasks, q, me, hint)|]
    decreases |q|
  {
    assert q != [];
    hide Candidates, Passed;
    var n := |q| - 1;
    var front := q[..n];
    var c, l := Candidates(tasks, front, me, hint), Passed(tasks, front, me, hint);
    OneMore(tasks, q, me, hint);
    PassesAll(tasks, front, me, hint);
    if |l| < |c| {
      i := FoundMeans(tasks, front, me, hint);
      assert Reached(tasks, q, me, hint, i);
    } else {
      i := n;
      forall k | 0 <= k < n && Asked(tasks, me, hint, q[k]) ensures !tasks[q[k]].exited {
        assert q[k] in front;
      }
    }
  }

  /** Task `r` is registered and asked for, and none that is asked for and registered before it has exited. */
  ghost predicate FirstToAnswer(k: Kernel, me: Pid, hint: int, r: int) {
    exists i :: 0 <= i < |k.registered| && k.registered[i] == r && Reached(k.tasks, k.registered, me, hint, i)
  }

  /**
    What the scan answers: -1 exactly if no registered task is asked for, a pid exactly if one that is asked for has
    exited, and then the first of those; and it waits for exactly the live ones before that, or with `nohang` for none.
   */
  lemma ScanMeans(k: Kernel, me: Pid, hint: int, nohang: bool)
    requires Distinct(k.registered)
    ensures var s := ScanChildren(k, me, hint, nohang);
      && s.ret >= -1
      && (s.ret == -1 <==> forall p :: p in k.registered ==> !Asked(k.tasks, me, hint, p))
      && (s.ret > 0 ==> s.ret in k.registered && Asked(k.tasks, me, hint, s.ret) && k.tasks[s.ret].exited)
      && (s.ret > 0 <==> exists p :: p in k.registered && Asked(k.tasks, me, hint, p) && k.tasks[p].exited)
      && (s.ret > 0 ==> FirstToAnswer(k, me, hint, s.ret))
      && (nohang ==> s.blobs == [])
      && (forall b :: b in s.blobs ==> b in k.registered && Asked(k.tasks, me, hint, b) && !k.tasks[b].exited)
      && (!nohang ==> forall i :: 0 <= i < |k.registered| ==>
        (k.registered[i] in s.blobs <==>
          Reached(k.tasks, k.registered, me, hint, i) && !k.tasks[k.registered[i]].exited))
  {
    var q := k.registered;
    var c, l := Candidates(k.tasks, q, me, hint), Passed(k.tasks, q, me, hint);
    CandidatesMeans(k.tasks, q, me, hint);
    PassesAll(k.tasks, q, me, hint);
    LivePrefixFacts(k.tasks, c);
    assert ScanChildren(k, me, hint, nohang) == Scan(
      if c == [] then -1 else if |l| < |c| && c[|l|] in k.tasks then c[|l|] else 0, if nohang then [] else l);
    hide ScanChildren, Candidates, Passed, Asked;
    if |l| < |c| {
      var i := FoundMeans(k.tasks, q, me, hint);
      assert c[|l|] in c && q[i] == c[|l|];
    }
    assert forall b :: b in l ==> b in c;
    forall i | 0 <= i < |q| ensures q[i] in l <==> Reached(k.tasks, q, me, hint, i) && !k.tasks[q[i]].exited {
      PassedMeans(k.tasks, q, me, hint, i);
    }
    if c != [] { assert c[0] in c; }
  }

  /**
    The answer of a wait4 that returns at once: -1 exactly if no registered child is asked for, a pid exactly if one has
    exited that is asked for, and then the first of those; zero otherwise, and then only with `nohang`.
   */
  ghost predicate Prompt(k: Kernel, me: Pid, hint: int, nohang: bool, r: int) {
    && (r == -1 <==> forall p :: p in k.registered ==> !Asked(k.tasks, me, hint, p))
    && (r > 0 <==> exists p :: p in k.registered && Asked(k.tasks, me, hint, p) && k.tasks[p].exited)
    && (r > 0 ==> r in k.registered && Asked(k.tasks, me, hint, r) && k.tasks[r].exited)
    && (r > 0 ==> FirstToAnswer(k, me, hint, r))
    && (r <= 0 ==> r == -1 || (r == 0 && nohang))
  }

  lemma PromptMeans(k: Kernel, me: Pid, hint: int, nohang: bool)
    requires Distinct(k.registered)
    ensures var s := ScanChildren(k, me, hint, nohang);
      (s.blobs == [] ==> Prompt(k, me, hint, nohang, s.ret)) && (nohang ==> s.blobs == [])
  {
    ScanMeans(k, me, hint, nohang);
    hide Asked, ScanChildren, FirstToAnswer;
    var s := ScanChildren(k, me, hint, nohang);
    if s.ret == 0 && !nohang {
      var p :| p in k.registered && Asked(k.tasks, me, hint, p);
      var i :| 0 <= i < |k.registered| && k.registered[i] == p;
      assert Reached(k.tasks, k.registered, me, hint, i);
      assert k.registered[i] in s.blobs;
    }
  }

  /** Registered tasks that are asked for and have not exited. */
  ghost predicate AllLive(k: Kernel, me: Pid, hint: int, bs: seq<Pid>) {
    forall b :: b in bs ==> b in k.registered && Asked(k.tasks, me, hint, b) && !k.tasks[b].exited
  }

  lemma AskedInScan(k: Kernel, me: Pid, hint: int, nohang: bool)
    requires Distinct(k.registered)
    ensures var s := ScanChildren(k, me, hint, nohang);
      && (s.blobs == [] ==> Prompt(k, me, hint, nohang, s.ret)) && (nohang ==> s.blobs == [])
      && AllLive(k, me, hint, s.blobs)
  {
    PromptMeans(k, me, hint, nohang);
    ScanMeans(k, me, hint, nohang);
    hide Prompt, ScanChildren, Asked;
  }

  /** A task as `call_wait4` leaves it when its caller goes to sleep. */
  function AfterSleep(tasks: map<Pid, Task>, me: Pid, w: Wait, p: Pid): Task
    requires p in tasks
  {
    var t := if p in w.blobs then tasks[p].(waiters := tasks[p].waiters + [me]) else tasks[p];
    if p == me then t.(state := Interruptible, wait := Some(w)) else t
  }

  function Sleep(k: Kernel, w: Wait): Kernel
    requires CanAct(k)
  {
    k.(tasks := map p | p in k.tasks :: AfterSleep(k.tasks, k.current.value, w, p))
  }

  predicate NotPid(x: int, p: Pid) { p != x }

  function Other(x: int): Pid -> bool { (p: Pid) => NotPid(x, p) }

  /** The end of `call_wait4`: the child it returns leaves the global task list. */
  function Returned(k: Kernel, ret: int): Kernel {
    if ret > 0 then k.(registered := Filter(k.registered, Other(ret)), reaped := k.reaped + [ret]) else k
  }

  /** `call_wait4` up to its yield or its return. */
  function Wait4(k: Kernel, hint: int, nohang: bool): Kernel
    requires CanAct(k)
  {
    var s := ScanChildren(k, k.current.value, hint, nohang);
    if s.blobs != [] then Sleep(k, Wait(s.ret, s.blobs)) else Returned(k, s.ret)
  }

  predicate Sleeps(k: Kernel, hint: int, nohang: bool)
    requires CanAct(k)
  {
    ScanChildren(k, k.current.value, hint, nohang).blobs != []
  }

  function FirstExited(tasks: map<Pid, Task>, blobs: seq<Pid>): int {
    if blobs == [] then 0
    else if blobs[0] in tasks && tasks[blobs[0]].exited then blobs[0]
    else FirstExited(tasks, blobs[1..])
  }

  predicate NotExitedBefore(tasks: map<Pid, Task>, blobs: seq<Pid>, i: nat)
    requires i <= |blobs|
  {
    forall j :: 0 <= j < i ==> !(blobs[j] in tasks && tasks[blobs[j]].exited)
  }

  /** Of the children with an entry, the first one that has exited. */
  lemma {:induction false} FirstExitedMeans(tasks: map<Pid, Task>, blobs: seq<Pid>, i: nat)
    requires i < |blobs| && NotExitedBefore(tasks, blobs, i) && blobs[i] in tasks && tasks[blobs[i]].exited
    ensures FirstExited(tasks, blobs) == blobs[i]
  {
    if i > 0 {
      assert forall j :: 0 <= j < i - 1 ==> blobs[1..][j] == blobs[j + 1];
      FirstExitedMeans(tasks, blobs[1..], i - 1);
    }
  }

  function Result(tasks: map<Pid, Task>, w: Wait): int {
    if w.ret > 0 then w.ret else FirstExited(tasks, w.blobs)
  }

  /** The answer of a pending wait4: what it had found before it slept, else the first of these children. */
  lemma ResultMeans(tasks: map<Pid, Task>, w: Wait, i: nat)
    requires i < |w.blobs| && NotExitedBefore(tasks, w.blobs, i) && w.blobs[i] in tasks && tasks[w.blobs[i]].exited
    ensures Result(tasks, w) == if w.ret > 0 then w.ret else w.blobs[i]
  {
    FirstExitedMeans(tasks, w.blobs, i);
  }

  function AfterResume(tasks: map<Pid, Task>, me: Pid, w: Wait, p: Pid): Task
    requires p in tasks
  {
    var t := if p in w.blobs then tasks[p].(waiters := Filter(tasks[p].waiters, Other(me))) else tasks[p];
    if p == me then t.(wait := None) else t
  }

  predicate CanResume(k: Kernel) {
    k.current.Some? && k.current.value in k.tasks && k.tasks[k.current.value].wait.Some?
  }

  /** The tasks after a resumption, before the child is unregistered. */
  function Resumed(k: Kernel): Kernel
    requires CanResume(k)
  {
    var me := k.current.value;
    var w := k.tasks[me].wait.value;
    k.(tasks := map p | p in k.tasks :: AfterResume(k.tasks, me, w, p))
  }

  /** `call_wait4` after its yield. */
  function Resume(k: Kernel): Kernel
    requires CanResume(k)
  {
    Returned(Resumed(k), Result(k.tasks, k.tasks[k.current.value].wait.value))
  }

  // ---- going to sleep keeps everything ----

  lemma SleepOtherWait(tasks: map<Pid, Task>, t: map<Pid, Task>, registered: seq<Pid>, me: Pid, w: Wait, p: Pid)
    requires p in tasks && p != me && tasks[p].wait.Some? && WaitIsSound(tasks, registered, p)
    requires t.Keys == tasks.Keys && forall q :: q in tasks ==> t[q] == AfterSleep(tasks, me, w, q)
    ensures t[p].wait.Some? && WaitIsSound(t, registered, p)
  {
    var Wait(ret, blobs) := tasks[p].wait.value;
    forall q | q in tasks
      ensures t[q].ppid == tasks[q].ppid && t[q].exited == tasks[q].exited && tasks[q].waiters <= t[q].waiters
      ensures q == p ==> t[q].state == tasks[q].state && t[q].wait == tasks[q].wait
    {
      assert t[q] == AfterSleep(tasks, me, w, q);
    }
    if t[p].state == Running {
      var b :| b in blobs && tasks[b].exited;
      assert t[b].exited;
    }
  }

  lemma SleepOwnWait(tasks: map<Pid, Task>, t: map<Pid, Task>, registered: seq<Pid>, me: Pid, w: Wait)
    requires me in tasks && t.Keys == tasks.Keys && forall q :: q in tasks ==> t[q] == AfterSleep(tasks, me, w, q)
    requires w.blobs != [] && Distinct(w.blobs)
    requires w.ret == 0 || Reapable(tasks, registered, me, w.ret)
    requires forall b :: b in w.blobs ==> IsChild(tasks, me, b) && b in registered && !tasks[b].exited
    ensures t[me].wait == Some(w) && WaitIsSound(t, registered, me)
  {
    forall b | b in w.blobs ensures me in t[b].waiters && IsChild(t, me, b) && !t[b].exited {
      assert t[b] == AfterSleep(tasks, me, w, b);
    }
    if w.ret > 0 {
      assert t[w.ret] == AfterSleep(tasks, me, w, w.ret);
    }
  }

  /** A task with no pending wait is in no wait queue. */
  lemma IdleTaskIsInNoQueue(tasks: map<Pid, Task>, me: Pid)
    requires me in tasks && tasks[me].wait.None? && QueuesSound(tasks)
    ensures forall c :: c in tasks ==> me !in tasks[c].waiters
  {
  }

  lemma SleepKeepsDistinct(tasks: map<Pid, Task>, t: map<Pid, Task>, me: Pid, w: Wait)
    requires me in tasks && t.Keys == tasks.Keys && forall q :: q in tasks ==> t[q] == AfterSleep(tasks, me, w, q)
    requires tasks[me].wait.None? && QueuesSound(tasks)
    ensures forall c :: c in t ==> Distinct(t[c].waiters)
  {
    IdleTaskIsInNoQueue(tasks, me);
    forall c | c in t ensures Distinct(t[c].waiters) {
      DistinctConcat(tasks[c].waiters, [me]);
      assert t[c] == AfterSleep(tasks, me, w, c);
    }
  }

  lemma SleepKeepsQueues(tasks: map<Pid, Task>, t: map<Pid, Task>, me: Pid, w: Wait)
    requires me in tasks && t.Keys == tasks.Keys && forall q :: q in tasks ==> t[q] == AfterSleep(tasks, me, w, q)
    requires tasks[me].wait.None? && !tasks[me].exited && QueuesSound(tasks) && SleepersWait(tasks)
    ensures QueuesSound(t) && SleepersWait(t)
  {
    SleepKeepsDistinct(tasks, t, me, w);
    hide Distinct;
    forall c, x | c in t && x in t[c].waiters ensures x in t && t[x].wait.Some? && c in t[x].wait.value.blobs {
      assert t[c] == AfterSleep(tasks, me, w, c);
      if x != me {
        assert x in tasks[c].waiters && t[x] == AfterSleep(tasks, me, w, x);
      }
    }
  }

  lemma SleepKeepsWaits(tasks: map<Pid, Task>, t: map<Pid, Task>, registered: seq<Pid>, me: Pid, w: Wait)
    requires me in tasks && t.Keys == tasks.Keys && forall q :: q in tasks ==> t[q] == AfterSleep(tasks, me, w, q)
    requires WaitsSound(tasks, registered)
    requires w.blobs != [] && Distinct(w.blobs) && (w.ret == 0 || Reapable(tasks, registered, me, w.ret))
    requires forall b :: b in w.blobs ==> IsChild(tasks, me, b) && b in registered && !tasks[b].exited
    ensures WaitsSound(t, registered)
  {
    hide WaitIsSound;
    forall p | p in t && t[p].wait.Some? ensures WaitIsSound(t, registered, p) {
      if p == me {
        SleepOwnWait(tasks, t, registered, me, w);
      } else {
        SleepOtherWait(tasks, t, registered, me, w, p);
      }
    }
  }

  lemma SleepKeepsNumbers(k: Kernel, t: map<Pid, Task>, w: Wait)
    requires Numbered(k.tasks, k.registered, k.nextPid) && ReapedOnce(k.tasks, k.registered, k.reaped) && CanAct(k)
    requires t.Keys == k.tasks.Keys && forall q :: q in k.tasks ==> t[q] == AfterSleep(k.tasks, k.current.value, w, q)
    ensures Numbered(t, k.registered, k.nextPid) && ReapedOnce(t, k.registered, k.reaped)
  {
    assert forall q :: q in k.tasks ==> t[q].ppid == k.tasks[q].ppid && t[q].exited == k.tasks[q].exited;
  }

  lemma SleepKeepsSound(k: Kernel, w: Wait)
    requires Sound(k) && CanAct(k) && Live(k, k.current.value)
    requires w.blobs != [] && Distinct(w.blobs) &&
      (w.ret == 0 || Reapable(k.tasks, k.registered, k.current.value, w.ret))
    requires forall b :: b in w.blobs ==>
      IsChild(k.tasks, k.current.value, b) && b in k.registered && !k.tasks[b].exited
    ensures Sound(Sleep(k, w))
  {
    hide WaitsSound, QueuesSound, SleepersWait;
    var me, t := k.current.value, Sleep(k, w).tasks;
    SleepKeepsWaits(k.tasks, t, k.registered, me, w);
    SleepKeepsQueues(k.tasks, t, me, w);
    SleepKeepsNumbers(k, t, w);
  }

  lemma SleepTraps(k: Kernel, w: Wait)
    requires Placed(k) && Stated(k) && CanAct(k)
    ensures Trapping(Sleep(k, w))
  {
    var me, k' := k.current.value, Sleep(k, w);
    assert Slots(k') == Slots(k);
    CurrentIsElsewhere(k);
    forall p | p in k.tasks && p != me
      ensures k'.tasks[p].exited == k.tasks[p].exited && k'.tasks[p].wait == k.tasks[p].wait &&
        k'.tasks[p].state == k.tasks[p].state
    {
      assert k'.tasks[p] == AfterSleep(k.tasks, me, w, p);
    }
    assert k'.tasks[me] == AfterSleep(k.tasks, me, w, me);
    hide Sleep;
    forall p ensures p in Slots(k') <==> Live(k', p) || k'.current == Some(p) {
      assert p in Slots(k) <==> Live(k, p);
    }
  }

  // ---- returning keeps everything ----

  lemma ReturnKeepsWaits(tasks: map<Pid, Task>, registered: seq<Pid>, me: Pid, ret: int)
    requires Reapable(tasks, registered, me, ret) && me in tasks && tasks[me].wait.None? &&
      WaitsSound(tasks, registered)
    ensures WaitsSound(tasks, Filter(registered, Other(ret)))
  {
    forall p ensures p in Filter(registered, Other(ret)) <==> p in registered && p != ret {
      FilterMembers(registered, Other(ret), p);
    }
    forall p | p in tasks && tasks[p].wait.Some? ensures WaitIsSound(tasks, Filter(registered, Other(ret)), p) {
      assert WaitIsSound(tasks, registered, p) && p != me;
    }
  }

  lemma ReturnKeepsSound(k: Kernel, me: Pid, ret: int)
    requires Sound(k) && me in k.tasks && k.tasks[me].wait.None?
    requires ret > 0 ==> Reapable(k.tasks, k.registered, me, ret)
    ensures Sound(Returned(k, ret))
    ensures ret > 0 ==> ret in k.registered && ret !in Returned(k, ret).registered && ret !in k.reaped
  {
    hide WaitsSound, QueuesSound, SleepersWait;
    if ret > 0 {
      ReturnKeepsWaits(k.tasks, k.registered, me, ret);
      FilterDistinct(k.registered, Other(ret));
      forall p ensures p in Filter(k.registered, Other(ret)) <==> p in k.registered && p != ret {
        FilterMembers(k.registered, Other(ret), p);
      }
      DistinctConcat(k.reaped, [ret]);
    }
  }

  lemma ReturnKeepsPlaces(k: Kernel, ret: int)
    requires Placed(k) && Stated(k)
    ensures Placed(Returned(k, ret)) && Stated(Returned(k, ret))
  {
    assert Slots(Returned(k, ret)) == Slots(k);
    forall p ensures p in Slots(Returned(k, ret)) <==> Live(Returned(k, ret), p) {
      assert p in Slots(k) <==> Live(k, p);
    }
  }

  /** `call_wait4` keeps the invariant, whether it returns at once or sleeps. */
  lemma WaitKeepsInv(k: Kernel, hint: int, nohang: bool)
    requires Inv(k) && CanAct(k)
    ensures var k' := Wait4(k, hint, nohang);
      if Sleeps(k, hint, nohang) then Trapping(k') && Inv(Trap(k')) else Inv(k')
  {
    var me := k.current.value;
    var s := ScanChildren(k, me, hint, nohang);
    ScanFacts(k, me, hint, nohang);
    CurrentIsElsewhere(k);
    hide ScanChildren, Placed, Stated, WaitsSound, QueuesSound, SleepersWait, ReapedOnce;
    if s.blobs != [] {
      var w := Wait(s.ret, s.blobs);
      SleepTraps(k, w);
      SleepKeepsSound(k, w);
      TrapKeepsSound(Sleep(k, w));
    } else {
      ReturnKeepsSound(k, me, s.ret);
      ReturnKeepsPlaces(k, s.ret);
    }
  }

  // ---- resuming keeps everything ----

  ghost predicate Resumes(tasks: map<Pid, Task>, me: Pid, w: Wait, t: map<Pid, Task>) {
    t.Keys == tasks.Keys && forall p :: p in tasks ==> t[p] == AfterResume(tasks, me, w, p)
  }

  lemma {:induction false} FirstExitedIsExited(tasks: map<Pid, Task>, blobs: seq<Pid>)
    requires exists b :: b in blobs && b in tasks && tasks[b].exited
    ensures var f := FirstExited(tasks, blobs); f > 0 && f in blobs && f in tasks && tasks[f].exited
  {
    if !(blobs[0] in tasks && tasks[blobs[0]].exited) {
      assert forall b :: b in blobs ==> b == blobs[0] || b in blobs[1..];
      FirstExitedIsExited(tasks, blobs[1..]);
    }
  }

  lemma FilterOther(s: seq<Pid>, x: int)
    ensures forall p :: p in Filter(s, Other(x)) <==> p in s && p != x
  {
    forall p ensures p in Filter(s, Other(x)) <==> p in s && p != x {
      FilterMembers(s, Other(x), p);
    }
  }

  /** A task that wait4 put to sleep and that runs again returns an exited child of its own. */
  lemma ResultIsReapable(tasks: map<Pid, Task>, registered: seq<Pid>, me: Pid)
    requires me in tasks && tasks[me].wait.Some? && WaitIsSound(tasks, registered, me) && tasks[me].state == Running
    ensures Reapable(tasks, registered, me, Result(tasks, tasks[me].wait.value))
  {
    FirstExitedIsExited(tasks, tasks[me].wait.value.blobs);
  }

  lemma ResumeOtherWait(tasks: map<Pid, Task>, t: map<Pid, Task>, registered: seq<Pid>, me: Pid, w: Wait, p: Pid)
    requires p in tasks && p != me && tasks[p].wait.Some? && WaitIsSound(tasks, registered, p)
    requires Resumes(tasks, me, w, t)
    ensures t[p].wait.Some? && WaitIsSound(t, registered, p)
  {
    var Wait(ret, blobs) := tasks[p].wait.value;
    forall q | q in tasks
      ensures t[q].ppid == tasks[q].ppid && t[q].exited == tasks[q].exited &&
        (p in tasks[q].waiters ==> p in t[q].waiters)
      ensures q == p ==> t[q].state == tasks[q].state && t[q].wait == tasks[q].wait
    {
      assert t[q] == AfterResume(tasks, me, w, q);
      FilterOther(tasks[q].waiters, me);
    }
    if t[p].state == Running {
      var b :| b in blobs && tasks[b].exited;
      assert t[b].exited;
    }
  }

  lemma ResumeKeepsWaits(tasks: map<Pid, Task>, t: map<Pid, Task>, registered: seq<Pid>, me: Pid, w: Wait)
    requires me in tasks && Resumes(tasks, me, w, t) && WaitsSound(tasks, registered)
    ensures WaitsSound(t, registered)
  {
    hide WaitIsSound;
    forall p | p in t && t[p].wait.Some? ensures WaitIsSound(t, registered, p) {
      assert t[p] == AfterResume(tasks, me, w, p);
      ResumeOtherWait(tasks, t, registered, me, w, p);
    }
  }

  /** The caller has left every wait queue. */
  lemma ResumeKeepsQueues(tasks: map<Pid, Task>, t: map<Pid, Task>, me: Pid, w: Wait)
    requires me in tasks && tasks[me].wait == Some(w) && tasks[me].state == Running
    requires Resumes(tasks, me, w, t) && QueuesSound(tasks) && SleepersWait(tasks)
    ensures QueuesSound(t) && SleepersWait(t)
  {
    forall c | c in t ensures Distinct(t[c].waiters) {
      FilterDistinct(tasks[c].waiters, Other(me));
      assert t[c] == AfterResume(tasks, me, w, c);
    }
    forall c, x | c in t && x in t[c].waiters ensures x in t && t[x].wait.Some? && c in t[x].wait.value.blobs {
      FilterOther(tasks[c].waiters, me);
      assert t[c] == AfterResume(tasks, me, w, c);
      assert x in tasks[c].waiters && x != me;
      assert t[x] == AfterResume(tasks, me, w, x);
    }
  }

  lemma ResumeKeepsSound(k: Kernel, t: map<Pid, Task>, me: Pid)
    requires Sound(k) && me in k.tasks && k.tasks[me].wait.Some? && k.tasks[me].state == Running
    requires Resumes(k.tasks, me, k.tasks[me].wait.value, t)
    ensures Sound(k.(tasks := t)) && t[me].wait.None?
  {
    var w := k.tasks[me].wait.value;
    ResumeKeepsWaits(k.tasks, t, k.registered, me, w);
    ResumeKeepsQueues(k.tasks, t, me, w);
    hide WaitsSound, QueuesSound, SleepersWait;
    assert forall p :: p in t ==> t[p] == AfterResume(k.tasks, me, w, p);
  }

  lemma ResumeKeepsPlaces(k: Kernel, t: map<Pid, Task>, me: Pid, w: Wait)
    requires Placed(k) && Stated(k) && k.current == Some(me) && me in k.tasks && Resumes(k.tasks, me, w, t)
    ensures Placed(k.(tasks := t)) && Stated(k.(tasks := t))
  {
    var k' := k.(tasks := t);
    CurrentIsElsewhere(k);
    forall p | p in k.tasks
      ensures t[p].exited == k.tasks[p].exited && t[p].state == k.tasks[p].state
      ensures p != me ==> t[p].wait == k.tasks[p].wait
      ensures p == me ==> t[p].wait == None
    {
      assert t[p] == AfterResume(k.tasks, me, w, p);
    }
    hide Resumes;
    assert Slots(k') == Slots(k);
    forall p ensures p in Slots(k') <==> Live(k', p) {
      assert p in Slots(k) <==> Live(k, p);
    }
  }

  lemma CurrentIsSound(k: Kernel)
    requires Inv(k) && CanResume(k)
    ensures var me := k.current.value; k.tasks[me].state == Running && WaitIsSound(k.tasks, k.registered, me)
  {
  }

  lemma ResumedIsReady(k: Kernel)
    requires Inv(k) && CanResume(k)
    ensures var me, k', ret := k.current.value, Resumed(k), Result(k.tasks, k.tasks[k.current.value].wait.value);
      && Inv(k') && me in k'.tasks && k'.tasks[me].wait.None?
      && Reapable(k.tasks, k.registered, me, ret) && Reapable(k'.tasks, k.registered, me, ret)
  {
    hide Placed, Stated, Numbered, WaitsSound, QueuesSound, SleepersWait, ReapedOnce, WaitIsSound, Result;
    var me, t := k.current.value, Resumed(k).tasks;
    var w := k.tasks[me].wait.value;
    CurrentIsSound(k);
    ResultIsReapable(k.tasks, k.registered, me);
    assert Resumes(k.tasks, me, w, t);
    ResumeKeepsSound(k, t, me);
    ResumeKeepsPlaces(k, t, me, w);
    var ret := Result(k.tasks, w);
    assert t[ret] == AfterResume(k.tasks, me, w, ret);
  }

  /**
    `call_wait4` after its yield keeps the invariant; it returns the positive pid of an exited, registered child of
    its caller that no wait4 has returned before, and leaves the caller in no wait queue.
   */
  lemma ResumeKeepsInv(k: Kernel)
    requires Inv(k) && CanResume(k)
    ensures Inv(Resume(k))
    ensures var me, k' := k.current.value, Resume(k);
      var ret := Result(k.tasks, k.tasks[me].wait.value);
      && Reapable(k.tasks, k.registered, me, ret) && ret !in k.reaped
      && ret !in k'.registered && k'.reaped == k.reaped + [ret]
      && k'.current == Some(me) && me in k'.tasks && k'.tasks[me].wait.None?
      && forall c :: c in k'.tasks ==> me !in k'.tasks[c].waiters
  {
    ResumedIsReady(k);
    hide WaitIsSound, Result, Placed, Stated, Numbered, WaitsSound, ReapedOnce, SleepersWait;
    var me, k', ret := k.current.value, Resumed(k), Result(k.tasks, k.tasks[k.current.value].wait.value);
    ReturnKeepsSound(k', me, ret);
    ReturnKeepsPlaces(k', ret);
    IdleTaskIsInNoQueue(k'.tasks, me);
  }
}
