/**
  The process kernel as it runs: task records, the linked lists that run through them, and the loops over those lists.
  Each operation is proved to make exactly the step of the same name in `Scheduler`, with every assertion of the kernel
  and of the lists discharged from the invariant of a run.
 */
module TaskSystem {
  import opened Collections
  import opened IntrusiveList
  import opened Scheduler
  import opened TaskPicture
  import opened WaitScan

  function NoTasks(): Kernel {
    Kernel(map[], [], [], [], [], None, 1, [])
  }

  lemma BeginShows(running: List, blocking: List, exiting: List, global: List)
    requires running.site == RunningHead && blocking.site == BlockingHead && exiting.site == ExitingHead &&
      global.site == GlobalHead
    requires forall l :: l in {running, blocking, exiting, global} ==> l.Valid() && l.nodes == []
    ensures var ls := {running, blocking, exiting, global};
      Pool(ls, {}) && Shows(Picture(map[], running, blocking, exiting, global, map[], Nodes(ls), {}), NoTasks()) &&
        NoTasks().current == None && NoTasks().nextPid == 1
  {
    var ls := {running, blocking, exiting, global};
    EmptyPool(ls);
    hide Pool, List.Valid;
    var pic := Picture(map[], running, blocking, exiting, global, map[], Nodes(ls), {});
    assert Heads(pic);
    assert AllFit(pic) && TasksShow(pic, map[]);
  }

  /** The initialisation of the four global lists. */
  method FourLists() returns (running: List, blocking: List, exiting: List, global: List)
    ensures fresh({running, blocking, exiting, global})
    ensures var ls := {running, blocking, exiting, global};
      && Pool(ls, {}) && Shows(Picture(map[], running, blocking, exiting, global, map[], Nodes(ls), {}), NoTasks())
      && NoTasks().current == None && NoTasks().nextPid == 1
  {
    running := new List(RunningHead);
    blocking := new List(BlockingHead);
    exiting := new List(ExitingHead);
    global := new List(GlobalHead);
    BeginShows(running, blocking, exiting, global);
  }

  /** A zombie comes before the first task that is running. */
  predicate MeetsZombie(ts: map<Pid, Task>, q: seq<Pid>) {
    if q == [] || q[0] !in ts || ts[q[0]].state == Running then false
    else ts[q[0]].state == Zombie || MeetsZombie(ts, q[1..])
  }

  lemma RunnersAreTasks(pic: Picture, k: Kernel)
    requires Shows(pic, k)
    ensures forall p :: p in k.running || p in k.blocking ==> p in k.tasks
  {
    forall p | p in k.running || p in k.blocking ensures p in k.tasks {
      PidsMembers(pic.n[pic.running], p);
      PidsMembers(pic.n[pic.blocking], p);
      hide TaskShows, Pids;
      assert forall x :: x in pic.n[pic.running] ==> Fits(pic, pic.running, x);
      assert forall x :: x in pic.n[pic.blocking] ==> Fits(pic, pic.blocking, x);
    }
  }

  /** Who is current is in no list. */
  lemma ShowsAnyCurrent(pic: Picture, k: Kernel, current: Option<Pid>)
    requires Shows(pic, k)
    ensures Shows(pic, k.(current := current))
  {
  }

  lemma CurrentIsIdle(k: Kernel)
    requires Trapping(k)
    ensures k.current.Some? ==>
      var p := k.current.value;
      p in k.tasks && p !in k.running && p !in k.blocking && p !in k.exiting && k.tasks[p].state != Zombie
  {
    if k.current.Some? {
      var c := CurrentSlot(k);
      DistinctConcat(c + k.running, k.blocking);
      DistinctConcat(c, k.running);
      assert k.current.value in c;
    }
  }

  lemma ScheduledHasNoZombie(k: Kernel)
    requires Trapping(k)
    ensures (k.current.Some? ==> k.current.value in k.tasks) &&
      forall p :: p in Scheduled(k).blocking && p in k.tasks ==> k.tasks[p].state != Zombie
  {
    ScheduledIsPlaced(k);
  }

  lemma {:induction false} RunnersAreNoZombies(ts: map<Pid, Task>, q: seq<Pid>)
    requires forall p :: p in q ==> p in ts && ts[p].state == Running
    ensures !MeetsZombie(ts, q)
  {
    if q != [] {
      assert q[0] in q;
    }
  }

  lemma QueueHasNoZombie(k: Kernel)
    requires Trapping(k)
    ensures (k.current.Some? ==> k.current.value in k.tasks) &&
      var p := ProcessBlocking(Scheduled(k)); !MeetsZombie(p.tasks, p.running)
  {
    QueueIsRunning(k);
    assert ProcessBlocking(Scheduled(k)).running == Queue(k);
    RunnersAreNoZombies(k.tasks, Queue(k));
  }

  /** Waking the first of a queue, and then the rest; nobody becomes more or less wakeable by it. */
  lemma WakeFirst(ts: map<Pid, Task>, q: seq<Pid>, i: nat)
    requires i < |q| && forall w :: w in q ==> w in ts
    ensures q[i] in ts && var ts' := ts[q[i] := Woken(ts[q[i]])];
      && (forall w :: w in q[i..] ==> w in ts) && (forall w :: w in q[i + 1..] ==> w in ts')
      && WakeAll(ts, q[i..]) == WakeAll(ts', q[i + 1..])
      && (CanWake(ts[q[i]]) ==> forall w :: w in ts ==> (CanWake(ts'[w]) <==> CanWake(ts[w])))
  {
    assert q[i..][0] == q[i] && q[i..][1..] == q[i + 1..];
  }

  lemma NewStructuresShow(pic: Picture, k: Kernel, pic': Picture)
    requires Shows(pic, k) && pic' == pic.(n := pic'.n, elems := pic'.elems) && pic.elems <= pic'.elems
    requires pic.n.Keys <= pic'.n.Keys && forall l :: l in pic'.n ==>
      if l in pic.n then pic'.n[l] == pic.n[l] else pic'.n[l] == [] && (l.site.QueueHead? || l.site.BlobHead?)
    ensures Shows(pic', k)
  {
    hide TasksShow, ListsShow, Heads;
    assert forall l, x :: l in pic.n && x in pic.n[l] ==> Fits(pic, l, x);
    AsideShows(pic, k, 0, pic');
  }

  lemma OutsideAfter(n: map<List, seq<Elem>>, l: List, x: Elem, y: Elem)
    requires l in n && Outside(n, y) && x != y
    ensures Outside(n[l := n[l] + [x]], y)
  {
  }

  lemma ShowsAnyPid(pic: Picture, k: Kernel, pid: Pid)
    requires Shows(pic, k)
    ensures Shows(pic, k.(nextPid := pid))
  {
  }

  lemma PidIsNew(k: Kernel)
    requires Inv(k)
    ensures k.nextPid !in k.tasks
  {
  }

  lemma QueueSites(pic: Picture, k: Kernel)
    requires Shows(pic, k)
    ensures forall p :: p in pic.tasks ==> pic.tasks[p].queue.site == QueueHead(p)
  {
    forall p | p in pic.tasks ensures pic.tasks[p].queue.site == QueueHead(p) {
      assert TaskShows(pic, p, k.tasks[p]);
    }
  }

  lemma InProgressFacts(pic: Picture, me: Pid, blobs: List)
    requires InProgress(pic, me, blobs)
    ensures me in pic.tasks && pic.tasks[me].wait.None? && blobs in pic.n && blobs.site == BlobHead(me)
  {
  }

  /** The picture before a blob, with the blob in the local list, and with its entry in the queue. */
  lemma EntryShows(pic: Picture, me: Pid, blobs: List, b: Elem, e: Elem, c: Pid, mid: Picture, end: Picture)
    requires InProgress(pic, me, blobs) && BlobsShow(pic, me, blobs) && Outside(pic.n, b) && b.site == BlobOf(me, c)
    requires c in pic.tasks && e in pic.elems && e.site == EntryOf(me, c) && pic.global in pic.n &&
      pic.global.site == GlobalHead
    requires pic.tasks[c].queue in pic.n && forall d :: d in pic.tasks ==> pic.tasks[d].queue.site == QueueHead(d)
    requires mid == pic.(n := pic.n[blobs := pic.n[blobs] + [b]], entries := pic.entries[b := e])
    requires var q := pic.tasks[c].queue; end == mid.(n := mid.n[q := mid.n[q] + [e]])
    ensures InProgress(end, me, blobs) && BlobsShow(end, me, blobs)
    ensures blobs in end.n && Pids(end.n[blobs]) == Pids(pic.n[blobs]) + [c]
    ensures pic.global in end.n && end.n[pic.global] == pic.n[pic.global]
  {
    hide BlobsShow, Pids, Outside;
    PidsAppend(pic.n[blobs], b);
    BlobsShowMore(pic, me, blobs, b, e, c, pic.elems);
  }

  /** New elements do not matter to the blobs there are. */
  lemma BlobsShowNew(pic: Picture, me: Pid, blobs: List, pic': Picture)
    requires BlobsShow(pic, me, blobs) && pic' == pic.(elems := pic'.elems) && pic.elems <= pic'.elems
    ensures BlobsShow(pic', me, blobs)
  {
    forall b | b in pic'.n[blobs] ensures BlobShows(pic', me, b) {
      assert BlobShows(pic, me, b);
    }
  }

  lemma InProgressStays(pic: Picture, me: Pid, blobs: List, pic': Picture)
    requires InProgress(pic, me, blobs) && pic'.tasks == pic.tasks && pic.n.Keys <= pic'.n.Keys
    ensures InProgress(pic', me, blobs)
  {
  }

  datatype Finding = NotWanted | HasExited | IsLive

  /** Whether the scan waits for the task of a record. */
  predicate WantedRecord(r: Record, me: Pid, hint: int, p: Pid) {
    && r.ppid == me && p != me
    && (if hint == -1 then true
        else if hint < -1 then r.tgid == -hint
        else if hint == 0 then r.tgid == me
        else p == hint)
  }

  /** A scan of `call_wait4`: the kernel it started from, and its arguments. */
  datatype ScanOf = ScanOf(k: Kernel, me: Pid, hint: int, nohang: bool)

  lemma NoBlobsShow(pic: Picture, me: Pid, blobs: List)
    requires blobs in pic.n && blobs.site == BlobHead(me) && pic.n[blobs] == []
    ensures BlobsShow(pic, me, blobs) && Pids(pic.n[blobs]) == []
  {
  }

  lemma EnteredKeys(ts: map<Pid, Task>, me: Pid, bs: seq<Pid>)
    ensures Entered(ts, me, bs).Keys == ts.Keys
  {
  }

  lemma EnteredAt(ts: map<Pid, Task>, me: Pid, bs: seq<Pid>, hint: int, p: Pid)
    requires p in ts
    ensures p in Entered(ts, me, bs) && (p !in bs ==> Entered(ts, me, bs)[p] == ts[p])
    ensures Wanted(Entered(ts, me, bs), me, hint, p) <==> Wanted(ts, me, hint, p)
    ensures Entered(ts, me, bs)[p].exited == ts[p].exited
  {
    WantedIsKept(ts, me, bs, hint, p);
  }

  /** The registration of a task is in the global task list exactly if the task is registered. */
  lemma NodeIsRegistered(pic: Picture, k: Kernel, p: Pid)
    requires Shows(pic, k) && p in k.tasks
    ensures p in pic.tasks && (pic.tasks[p].node in pic.n[pic.global] <==> p in k.registered)
    ensures forall j :: 0 <= j < |pic.n[pic.global]| && pic.n[pic.global][j] == pic.tasks[p].node ==>
      PidOf(pic.n[pic.global][j]) == p
  {
    hide TasksShow, Heads, Pids;
    LinkFacts(pic, k, p);
    HeadsExist(pic, k);
    SitesOf(pic, k);
    PidsMembers(pic.n[pic.global], p);
    assert forall x :: x in pic.n[pic.global] ==> Fits(pic, pic.global, x);
  }

  /** What a task can rely on when it calls wait4. */
  lemma ReadyToWait(k: Kernel, hint: int, nohang: bool)
    requires Inv(k) && CanAct(k)
    ensures var me := k.current.value; var s := ScanChildren(k, me, hint, nohang);
      && k.tasks[me].state == Running && Distinct(k.registered) && (s.ret > 0 ==> s.ret in k.tasks)
      && if s.blobs != [] then Trapping(Sleep(k, Wait(s.ret, s.blobs))) && Inv(Trap(Sleep(k, Wait(s.ret, s.blobs))))
         else Inv(Returned(k, s.ret))
  {
    WaitKeepsInv(k, hint, nohang);
    WakeNeverDies(k);
    RegisteredIsSound(k);
    ScanFacts(k, k.current.value, hint, nohang);
    hide Inv, Trapping, ScanChildren;
  }

  lemma InProgressIsList(pic: Picture, me: Pid, blobs: List)
    requires InProgress(pic, me, blobs)
    ensures blobs in pic.n
  {
  }

  lemma LeftStaysDistinct(ts: map<Pid, Task>, me: Pid, bs: seq<Pid>)
    requires forall p :: p in ts ==> Distinct(ts[p].waiters)
    ensures forall p :: p in Left(ts, me, bs) ==> Distinct(Left(ts, me, bs)[p].waiters)
  {
    forall p | p in ts ensures Distinct(Left(ts, me, bs)[p].waiters) {
      FilterDistinct(ts[p].waiters, Other(me));
    }
  }

  lemma LeftKeys(ts: map<Pid, Task>, me: Pid, bs: seq<Pid>)
    ensures Left(ts, me, bs).Keys == ts.Keys && forall p :: p in ts ==> Left(ts, me, bs)[p].exited == ts[p].exited
  {
  }

  /** Distinct pids are distinct numbers. */
  lemma DistinctInts(q: seq<Pid>, s: seq<int>)
    requires Distinct(q) && q == s
    ensures Distinct(s)
  {
  }

  lemma RestIsDistinct(s: seq<Pid>, i: nat)
    requires Distinct(s) && i <= |s|
    ensures Distinct(s[i..])
  {
  }

  lemma BlobsAreList(pic: Picture, me: Pid, blobs: List)
    requires BlobsShow(pic, me, blobs)
    ensures blobs in pic.n && blobs.site == BlobHead(me)
  {
  }

  lemma WaitIsDistinct(k: Kernel)
    requires Inv(k) && CanResume(k)
    ensures Distinct(k.tasks[k.current.value].wait.value.blobs) && forall p :: p in k.tasks ==>
      Distinct(k.tasks[p].waiters)
  {
    CurrentIsSound(k);
  }

  lemma {:induction false} FirstExitedIgnores(ts: map<Pid, Task>, ts': map<Pid, Task>, bs: seq<Pid>)
    requires ts.Keys == ts'.Keys && forall p :: p in ts ==> ts'[p].exited == ts[p].exited
    ensures FirstExited(ts', bs) == FirstExited(ts, bs)
    decreases |bs|
  {
    if bs != [] { FirstExitedIgnores(ts, ts', bs[1..]); }
  }

  lemma ResultIgnoresWait(ts: map<Pid, Task>, me: Pid, w: Wait)
    requires me in ts
    ensures Result(ts[me := ts[me].(wait := None)], w) == Result(ts, w)
    ensures forall p :: p in ts ==> ts[me := ts[me].(wait := None)][p].waiters == ts[p].waiters
  {
    FirstExitedIgnores(ts, ts[me := ts[me].(wait := None)], w.blobs);
  }

  /** Giving up the frame first and leaving the queues then comes to the same. */
  lemma ResumeIsLeaveAfter(k: Kernel)
    requires CanResume(k)
    ensures var me, w := k.current.value, k.tasks[k.current.value].wait.value;
      Resumed(k) == k.(tasks := Left(k.tasks[me := k.tasks[me].(wait := None)], me, w.blobs))
  {
  }

  class System {
    const running: List
    const blocking: List
    const exiting: List
    const global: List
    var tasks: map<Pid, Record>
    var entries: map<Elem, Elem>
    var current: Option<Pid>
    var nextPid: Pid

    /** All lists and elements there are, and the kernel they show. */
    ghost var lists: set<List>
    ghost var elems: set<Elem>
    ghost var k: Kernel

    ghost function Pic(): Picture
      reads this, lists
    {
      Picture(tasks, running, blocking, exiting, global, entries, Nodes(lists), elems)
    }

    ghost predicate Valid()
      reads this, lists, elems
    {
      Pool(lists, elems) && Shows(Pic(), k) && k.current == current && k.nextPid == nextPid
    }

    /** The four global lists, before there is any task. */
    constructor ()
      ensures Valid() && fresh(lists) && fresh(elems) && k == NoTasks()
    {
      hide Pool, List.Valid, Shows, NoTasks, Nodes;
      var r, b, e, g := FourLists();
      running, blocking, exiting, global := r, b, e, g;
      tasks, entries, current, nextPid := map[], map[], None, 1;
      new;
      lists, elems, k := {running, blocking, exiting, global}, {}, NoTasks();
    }

    /** A record gets new values, but keeps its links and its wait. */
    method SetState(p: Pid, r: Record, ghost t: Task)
      requires Valid() && p in k.tasks && p in tasks
      requires r == tasks[p].(state := r.state, nonStop := r.nonStop, exited := r.exited)
      requires t == k.tasks[p].(state := r.state, nonStop := r.nonStop, exited := r.exited)
      modifies this`tasks, this`k
      ensures Valid() && k == old(k).(tasks := old(k.tasks)[p := t]) && tasks == old(tasks)[p := r]
    {
      hide Pool, Shows, WaitShows;
      WaitOfTask(Pic(), k, p);
      RecordShows(Pic(), k, p, r, t);
      tasks := tasks[p := r];
      k := k.(tasks := k.tasks[p := t]);
    }

    /** `transit_state`: the state is stored before the table is consulted. */
    method TransitState(p: Pid, target: TaskState) returns (died: bool)
      requires Valid() && p in k.tasks
      modifies this`tasks, this`k
      ensures died <==> !Allowed(old(k.tasks[p].state), target)
      ensures Valid() && k == old(k).(tasks := old(k.tasks)[p := old(k.tasks[p]).(state := target)])
      ensures p in old(tasks) && tasks == old(tasks)[p := old(tasks[p]).(state := target)]
    {
      hide Pool, Shows;
      WaitOfTask(Pic(), k, p);
      var r := tasks[p];
      SetState(p, r.(state := target), k.tasks[p].(state := target));
      died := !Allowed(r.state, target);
    }

    /** `schedule_task`: with its link in no list, a task that is no zombie is appended where its state says. */
    method ScheduleTask(p: Pid) returns (died: bool)
      requires Valid() && p in k.tasks && p in tasks
      modifies this`k, lists, elems
      ensures old(Outside(Nodes(lists), tasks[p].list)) ==> (died <==> old(k.tasks[p].state) == Zombie)
      ensures old(Outside(Nodes(lists), tasks[p].list)) && !died ==> Valid() && k == Schedule(old(k), p)
    {
      hide Pool, Shows, Outside;
      LinkFacts(Pic(), k, p);
      if tasks[p].state == Zombie { return true; }
      ScheduleShows(Pic(), k, p);
      var l := if tasks[p].state == Running then running else if tasks[p].state == Exiting then exiting else blocking;
      PoolElems(lists, elems, l);
      died := AppendTo(lists, elems, l, tasks[p].list);
      k := Schedule(k, p);
    }

    /** `process_blocking_list`: the traversal that removes the element it visits; it dies exactly on a zombie. */
    method ProcessBlockingList() returns (died: bool)
      requires Valid()
      modifies this`k, lists, elems
      ensures died <==> exists p :: p in old(k).blocking && p in old(k).tasks && old(k).tasks[p].state == Zombie
      ensures !died ==> Valid() && k == ProcessBlocking(old(k))
    {
      hide Pool, Shows, Matches, Filter, Bound, MoveOf, Heads, Pids;
      ghost var pic := Pic();
      HeadsExist(pic, k);
      BlockingMatches(pic, k);
      MatchesZombie(pic.n[blocking], k.blocking, tasks, k.tasks);
      SweepShows(pic, k);
      died := Sweep(lists, elems, blocking, running, exiting, MoveOf(tasks));
      k := ProcessBlocking(k);
    }

    /** `list_fetch` in terms of the picture. */
    method Take(l: List) returns (x: Elem?)
      requires Pool(lists, elems) && l in lists
      modifies lists, elems
      ensures Pool(lists, elems) && (x == null <==> old(l.nodes) == [])
      ensures x == null ==> Pic() == old(Pic())
      ensures x != null ==> x == old(l.nodes)[0] && Outside(Pic().n, x)
      ensures x != null ==> Pic() == old(Pic()).(n := old(Pic()).n[l := old(l.nodes)[1..]])
    {
      hide Pool, Outside;
      PoolElems(lists, elems, l);
      x := FetchFrom(lists, elems, l);
    }

    method DropExiting() returns (more: bool)
      requires Valid()
      modifies this`k, lists, elems
      ensures Valid() && more == (old(k).exiting != [])
      ensures k == old(k).(exiting := if more then old(k).exiting[1..] else old(k).exiting)
    {
      hide Pool, Shows, Heads, Pids;
      HeadsExist(Pic(), k);
      PidsEmpty(exiting.nodes);
      if exiting.nodes != [] { FetchExitingShows(Pic(), k); }
      var x := Take(exiting);
      more := x != null;
      if more { k := k.(exiting := k.exiting[1..]); }
    }

    /** `process_exiting_list`. */
    method ProcessExitingList()
      requires Valid()
      modifies this`k, lists, elems
      ensures Valid() && k == old(k).(exiting := [])
    {
      hide Valid;
      while true
        invariant Valid() && k == old(k).(exiting := k.exiting) && lists == old(lists) && elems == old(elems)
        decreases |k.exiting|
      {
        var more := DropExiting();
        if !more { break; }
      }
    }

    /** `list_delete` of a member, in terms of the picture. */
    method Remove(l: List, x: Elem) returns (died: bool, ghost j: nat)
      requires Pool(lists, elems) && l in lists && x in l.nodes
      modifies lists, elems
      ensures !died && Pool(lists, elems) && j < |old(l.nodes)| && old(l.nodes)[j] == x
      ensures Pic() == old(Pic()).(n := old(Pic()).n[l := Without(old(l.nodes), j)])
    {
      hide Pool, Outside, Without;
      PoolElems(lists, elems, l);
      died, j := DeleteFrom(lists, elems, l, x);
    }

    /** `list_append` of an element that is in no list, in terms of the picture. */
    method Add(l: List, x: Elem) returns (died: bool)
      requires Pool(lists, elems) && l in lists && x in elems && Outside(Nodes(lists), x)
      modifies lists, elems
      ensures !died && Pool(lists, elems)
      ensures Pic() == old(Pic()).(n := old(Pic()).n[l := old(l.nodes) + [x]])
    {
      hide Pool, Outside;
      PoolElems(lists, elems, l);
      died := AppendTo(lists, elems, l, x);
    }

    /** The first task of the running list, with its link in no list any more. */
    method TakeRunning() returns (p: Option<Pid>)
      requires Valid()
      modifies this`k, lists, elems
      ensures Valid() && (p.None? <==> old(k).running == [])
      ensures p.None? ==> k == old(k)
      ensures p.Some? ==> p.value == old(k).running[0] && k == old(k).(running := old(k).running[1..])
      ensures p.Some? ==> p.value in k.tasks && p.value in tasks && tasks[p.value].state == k.tasks[p.value].state
      ensures p.Some? ==> Outside(Nodes(lists), tasks[p.value].list)
    {
      hide Pool, Shows, Outside, Heads, Pids, Nodes;
      HeadsExist(Pic(), k);
      PidsEmpty(running.nodes);
      if running.nodes != [] {
        FetchRunningShows(Pic(), k);
        LinkFacts(Pic(), k, k.running[0]);
      }
      var x := Take(running);
      if x == null { return None; }
      k := k.(running := k.running[1..]);
      p := Some(PidOf(x));
    }

    /** `process_running_list`: it dies exactly if a zombie comes before the first task that is running. */
    method ProcessRunningList() returns (next: Option<Pid>, died: bool)
      requires Valid() && forall p :: p in k.running ==> p in k.tasks
      modifies this`k, lists, elems
      ensures died <==> MeetsZombie(old(k).tasks, old(k).running)
      ensures !died ==> Valid() && k.(current := next) == ProcessRunning(old(k))
    {
      hide Valid, Outside;
      while true
        invariant Valid() && lists == old(lists) && elems == old(elems) && (forall p :: p in k.running ==> p in k.tasks)
        invariant k.tasks == old(k).tasks &&
          MeetsZombie(k.tasks, k.running) == MeetsZombie(old(k).tasks, old(k).running)
        invariant ProcessRunning(k) == ProcessRunning(old(k))
        decreases |k.running|
      {
        var p := TakeRunning();
        if p.None? { return None, false; }
        if tasks[p.value].state == Running { return p, false; }
        died := ScheduleTask(p.value);
        if died { return None, true; }
      }
    }

    lemma CurrentIsCurrent()
      requires Valid()
      ensures k.current == current
    {
    }

    lemma IdleIsOutside(p: Pid)
      requires Valid() && p in k.tasks && p !in k.running && p !in k.blocking && p !in k.exiting
      ensures p in tasks && Outside(Nodes(lists), tasks[p].list)
    {
      hide Pool;
      IdleLinkIsOutside(Pic(), k, p);
      LinkFacts(Pic(), k, p);
    }

    lemma RunnersExist()
      requires Valid()
      ensures forall p :: p in k.running ==> p in k.tasks
    {
      hide Pool;
      RunnersAreTasks(Pic(), k);
    }

    method Dispatch(next: Option<Pid>)
      requires Valid()
      modifies this`current, this`k
      ensures Valid() && k == old(k).(current := next)
    {
      hide Pool, Shows;
      ShowsAnyCurrent(Pic(), k, next);
      current := next;
      k := k.(current := next);
    }

    /**
      `userspace_trap_handler`: in any state in which a run traps it dispatches the next task and no assertion fails.
     */
    method TrapHandler() returns (died: bool)
      requires Valid() && Trapping(k)
      modifies this`k, this`current, lists, elems
      ensures !died && Valid() && k == Trap(old(k))
    {
      hide Valid, Outside, ProcessBlocking, ProcessRunning, Trapping, MeetsZombie;
      CurrentIsIdle(k);
      ScheduledHasNoZombie(k);
      QueueHasNoZombie(k);
      CurrentIsCurrent();
      died := false;
      if current.Some? {
        IdleIsOutside(current.value);
        died := ScheduleTask(current.value);
      }
      var sweepDied := ProcessBlockingList();
      ProcessExitingList();
      RunnersExist();
      var next, choiceDied := ProcessRunningList();
      died := died || sweepDied || choiceDied;
      Dispatch(next);
    }

    // ---- exit ----

    method RawTaskWakeUp(p: Pid) returns (died: bool)
      requires Valid() && p in k.tasks
      modifies this`tasks, this`k
      ensures died <==> !CanWake(old(k.tasks[p]))
      ensures !died ==> Valid() && k == old(k).(tasks := old(k.tasks)[p := Woken(old(k.tasks[p]))])
    {
      hide Pool, Shows;
      WaitOfTask(Pic(), k, p);
      died := false;
      var r := tasks[p];
      match r.state {
        case Running => assert k.tasks == k.tasks[p := k.tasks[p]];
        case Interruptible => died := TransitState(p, Running);
        case Uninterruptible =>
          if r.nonStop != Running && r.nonStop != Interruptible { return true; }
          SetState(p, r.(nonStop := Running), k.tasks[p].(nonStop := Running));
        case _ => died := true;
      }
    }

    /** The links of a list, as a traversal sees them. */
    lemma QueueLinks(l: List)
      requires Valid() && l in lists
      ensures l.next == if l.nodes == [] then null else l.nodes[0]
      ensures forall i :: 0 <= i < |l.nodes| ==> l.nodes[i].next == if i + 1 < |l.nodes| then l.nodes[i + 1] else null
    {
      hide Shows;
      FirstNode(lists, elems, l);
      forall i | 0 <= i < |l.nodes| ensures l.nodes[i].next == if i + 1 < |l.nodes| then l.nodes[i + 1] else null {
        NextNode(lists, elems, l, i);
      }
    }

    /** `wake_up`: a traversal of the wait queue. */
    method WakeUp(queue: List, ghost q: seq<Pid>) returns (died: bool)
      requires Valid() && queue in lists && q == Pids(queue.nodes) && forall w :: w in q ==> w in k.tasks
      modifies this`tasks, this`k
      ensures died <==> exists w :: w in q && !CanWake(old(k.tasks[w]))
      ensures !died ==> Valid() && k == old(k).(tasks := WakeAll(old(k.tasks), q))
    {
      hide Valid, Pids, Pool, Woken, CanWake;
      QueueLinks(queue);
      var cursor := queue.next;
      ghost var i := 0;
      PidsAt(queue.nodes);
      assert q[0..] == q;
      while cursor != null
        invariant 0 <= i <= |q| && |q| == |queue.nodes| && cursor == if i < |q| then queue.nodes[i] else null
        invariant Valid() && k == old(k).(tasks := k.tasks) && k.tasks.Keys == old(k).tasks.Keys
        invariant WakeAll(k.tasks, q[i..]) == WakeAll(old(k.tasks), q)
        invariant forall w :: w in k.tasks ==> (CanWake(k.tasks[w]) <==> CanWake(old(k.tasks[w])))
        invariant forall j :: 0 <= j < i ==> CanWake(old(k.tasks[q[j]]))
        decreases |q| - i
      {
        QueueLinks(queue);
        var following := cursor.next;
        assert following == if i + 1 < |queue.nodes| then queue.nodes[i + 1] else null;
        WakeFirst(k.tasks, q, i);
        died := RawTaskWakeUp(PidOf(cursor));
        if died { return; }
        cursor, i := following, i + 1;
      }
      died := false;
    }

    /** `do_exit` before its yield. */
    method Retire() returns (died: bool)
      requires Valid() && CanAct(k) && forall w :: w in k.tasks[k.current.value].waiters ==>
        w in k.tasks && w != k.current.value
      modifies this`tasks, this`k
      ensures var me := old(k.current.value);
        died <==> !(old(k).tasks[me].state in {Running, Exiting} && forall w :: w in old(k).tasks[me].waiters ==>
          CanWake(old(k).tasks[w]))
      ensures !died ==> Valid() && k == Exit(old(k))
    {
      hide Pool, Shows, Pids;
      var me := current.value;
      ghost var k0, queue := k, k.tasks[me].waiters;
      WaitOfTask(Pic(), k, me);
      QueueOfTask(Pic(), k, me);
      SetState(me, tasks[me].(exited := true), k.tasks[me].(exited := true));
      died := WakeUp(tasks[me].queue, queue);
      if died { return; }
      WakeAllAt(k0.tasks[me := k0.tasks[me].(exited := true)], queue, me);
      died := TransitState(me, Exiting);
    }

    /** `do_exit`, up to the dispatch of the next task. */
    method DoExit() returns (died: bool)
      requires Valid() && Inv(k) && CanAct(k) && forall w :: w in k.tasks[k.current.value].waiters ==> w in k.tasks
      modifies this`tasks, this`k, this`current, lists, elems
      ensures !died && Valid() && Inv(k)
      ensures Trapping(Exit(old(k))) && k == Trap(Exit(old(k)))
    {
      hide Valid, Inv, Trapping, Trap, Exit;
      ExitKeepsInv(k);
      WakeNeverDies(k);
      died := Retire();
      var trapDied := TrapHandler();
      died := died || trapDied;
    }

    // ---- clone ----

    /** A new element is in no list. */
    method NewElem(site: Site) returns (x: Elem)
      requires Valid()
      modifies this`elems
      ensures Valid() && fresh(x) && elems == old(elems) + {x} && x.site == site && Outside(Nodes(lists), x)
    {
      hide Shows, List.Valid, Scattered;
      ghost var pic := Pic();
      x := new Elem(site);
      PoolTakes(lists, elems, x);
      elems := elems + {x};
      hide Pool, Outside;
      NewStructuresShow(pic, k, Pic());
    }

    /** A new list, of a kind that there are many of. */
    method NewList(site: Site) returns (l: List)
      requires Valid() && (site.QueueHead? || site.BlobHead?)
      modifies this`lists
      ensures Valid() && fresh(l) && lists == old(lists) + {l} && l.site == site && l.nodes == []
      ensures Nodes(lists) == old(Nodes(lists))[l := []]
    {
      hide Shows, List.Valid, Scattered;
      ghost var pic := Pic();
      l := new List(site);
      PoolGrows(lists, elems, l);
      lists := lists + {l};
      hide Pool, Outside;
      NewStructuresShow(pic, k, Pic());
    }

    /** The structures of a new task: two links in no list, and an empty wait queue. */
    method Allocate(pid: Pid) returns (list: Elem, node: Elem, queue: List)
      requires Valid()
      modifies this`lists, this`elems
      ensures Valid() && lists == old(lists) + {queue} && elems == old(elems) + {list, node} && fresh({list, node}) &&
        fresh(queue)
      ensures list.site == HartOf(pid) && node.site == VmOf(pid) && queue.site == QueueHead(pid)
      ensures queue.nodes == [] && Outside(Nodes(lists), list) && Outside(Nodes(lists), node) && list != node
    {
      hide Valid;
      list := NewElem(HartOf(pid));
      node := NewElem(VmOf(pid));
      queue := NewList(QueueHead(pid));
    }

    /** The record of a new task. */
    method Install(p: Pid, r: Record, ghost t: Task)
      requires Valid() && p !in k.tasks && r.wait.None? && t.wait.None? && t.waiters == []
      requires t.ppid == r.ppid && t.tgid == r.tgid && t.state == r.state && t.nonStop == r.nonStop &&
        t.exited == r.exited
      requires r.list.site == HartOf(p) && r.list in elems && r.node.site == VmOf(p) && r.node in elems
      requires r.queue in lists && r.queue.site == QueueHead(p) && r.queue.nodes == []
      modifies this`tasks, this`k
      ensures Valid() && k == old(k).(tasks := old(k.tasks)[p := t]) && tasks == old(tasks)[p := r]
    {
      hide Pool, Shows;
      NewTaskShows(Pic(), k, p, r, t);
      tasks := tasks[p := r];
      k := k.(tasks := k.tasks[p := t]);
    }

    /** `register_task`: with its registration in no list, it is appended. */
    method RegisterTask(p: Pid) returns (died: bool)
      requires Valid() && p in k.tasks && p in tasks && Outside(Nodes(lists), tasks[p].node)
      modifies this`k, global, elems
      ensures !died && Valid() && k == old(k).(registered := old(k).registered + [p])
      ensures Nodes(lists) == old(Nodes(lists))[global := old(global.nodes) + [tasks[p].node]]
    {
      hide Pool, Shows, Outside;
      LinkFacts(Pic(), k, p);
      RegisterShows(Pic(), k, p);
      PoolElems(lists, elems, global);
      died := AppendTo(lists, elems, global, tasks[p].node);
      k := k.(registered := k.registered + [p]);
    }

    /** A task record, with its structures, that is in no list yet. */
    method NewRecord(pid: Pid, ppid: Pid, tgid: Pid)
      requires Valid() && pid !in k.tasks
      modifies this`lists, this`elems, this`tasks, this`k
      ensures Valid() && fresh(lists - old(lists)) && fresh(elems - old(elems))
      ensures k == old(k).(tasks := old(k.tasks)[pid := Task(ppid, tgid, Running, Zombie, false, [], None)])
      ensures pid in tasks && tasks[pid].list != tasks[pid].node
      ensures Outside(Nodes(lists), tasks[pid].list) && Outside(Nodes(lists), tasks[pid].node)
    {
      hide Valid, Outside, Nodes;
      var list, node, queue := Allocate(pid);
      Install(pid, Record(ppid, tgid, Running, Zombie, false, list, node, queue, None),
        Task(ppid, tgid, Running, Zombie, false, [], None));
    }

    lemma GlobalExists()
      requires Valid()
      ensures global in lists
    {
      hide Pool;
      HeadsExist(Pic(), k);
    }

    /** A task that is in no list is registered and scheduled. */
    method Enrol(pid: Pid) returns (died: bool)
      requires Valid() && pid in k.tasks && k.tasks[pid].state == Running && pid in tasks &&
        tasks[pid].list != tasks[pid].node
      requires Outside(Nodes(lists), tasks[pid].list) && Outside(Nodes(lists), tasks[pid].node)
      modifies this`k, lists, elems
      ensures !died && Valid() &&
        k == old(k).(registered := old(k.registered) + [pid], running := old(k.running) + [pid])
    {
      hide Valid, Outside;
      GlobalExists();
      ghost var n := Nodes(lists);
      died := RegisterTask(pid);
      OutsideAfter(n, global, tasks[pid].node, tasks[pid].list);
      var scheduleDied := ScheduleTask(pid);
      died := died || scheduleDied;
    }

    /** A new task, registered and ready to run. */
    method AddTask(pid: Pid, ppid: Pid, tgid: Pid) returns (died: bool)
      requires Valid() && pid !in k.tasks
      modifies this`lists, this`elems, this`tasks, this`k, lists, elems
      ensures !died && Valid() && fresh(lists - old(lists)) && fresh(elems - old(elems))
      ensures k == old(k).(
        tasks := old(k.tasks)[pid := Task(ppid, tgid, Running, Zombie, false, [], None)],
        registered := old(k.registered) + [pid], running := old(k.running) + [pid])
    {
      hide Valid, Outside, Nodes;
      NewRecord(pid, ppid, tgid);
      died := Enrol(pid);
    }

    method SetNextPid(pid: Pid)
      requires Valid()
      modifies this`nextPid, this`k
      ensures Valid() && k == old(k).(nextPid := pid)
    {
      hide Pool, Shows;
      ShowsAnyPid(Pic(), k, pid);
      nextPid := pid;
      k := k.(nextPid := pid);
    }

    method WhoAndNext() returns (me: Pid, pid: Pid)
      requires Valid() && CanAct(k)
      ensures me == k.current.value && pid == k.nextPid
    {
      return current.value, nextPid;
    }

    /** `clone_task`: a pid never used before, registered and ready to run; no assertion fails. */
    method CloneTask(thread: bool) returns (pid: Pid, died: bool)
      requires Valid() && Inv(k) && CanAct(k)
      modifies this`lists, this`elems, this`tasks, this`nextPid, this`k, lists, elems
      ensures !died && pid !in old(k.tasks) && Valid() && Inv(k) && k == Clone(old(k), thread)
      ensures pid in k.tasks && k.tasks[pid].ppid == old(k.current.value) != pid && !k.tasks[pid].exited
      ensures k.tasks[pid].tgid == if thread then old(k.current.value) else pid
      ensures k.registered == old(k.registered) + [pid] && k.running == old(k.running) + [pid]
      ensures fresh(lists - old(lists)) && fresh(elems - old(elems))
    {
      hide Valid, Inv;
      CloneKeepsInv(k, thread);
      PidIsNew(k);
      var me;
      me, pid := WhoAndNext();
      SetNextPid(pid + 1);
      died := AddTask(pid, me, if thread then me else pid);
    }

    /** The start of the first process, before the idle task yields for the first time. */
    method Start() returns (died: bool)
      requires Valid() && k == NoTasks()
      modifies this`lists, this`elems, this`tasks, this`nextPid, this`k, lists, elems
      ensures !died && Valid() && k == Boot() && Inv(k)
      ensures fresh(lists - old(lists)) && fresh(elems - old(elems))
    {
      hide Valid, Inv;
      BootIsFine();
      died := AddTask(1, 1, 1);
      SetNextPid(2);
    }

    // ---- wait4 ----

    /** `list_append` of a blob to the local list of a wait4. */
    method AppendBlob(me: Pid, blobs: List, b: Elem, e: Elem) returns (died: bool)
      requires Valid() && InProgress(Pic(), me, blobs) && b in elems && b.site.BlobOf? && b.site.waiter == me &&
        Outside(Nodes(lists), b)
      modifies this`entries, lists, elems
      ensures !died && Valid() && entries == old(entries)[b := e] && blobs in lists
      ensures Nodes(lists) == old(Nodes(lists))[blobs := old(blobs.nodes) + [b]]
      ensures Pic() == old(Pic()).(n := Nodes(lists), entries := entries)
    {
      hide Pool, Shows, Outside;
      AppendBlobShows(Pic(), k, me, blobs, b, e);
      died := Add(blobs, b);
      entries := entries[b := e];
    }

    /** `element_in_list`. */
    method ContainsIn(l: List, x: Elem) returns (found: bool)
      requires Pool(lists, elems) && l in lists
      ensures found <==> x in l.nodes
    {
      hide List.Valid, Scattered, Outside;
      found := l.Contains(x);
    }

    /** `add_wait_queue_entry`, on an entry that is in no queue. */
    method AddWaitQueueEntry(me: Pid, c: Pid, e: Elem) returns (died: bool)
      requires Valid() && c in k.tasks && c in tasks && e in elems && e.site == EntryOf(me, c) &&
        Outside(Nodes(lists), e)
      modifies this`k, lists, elems
      ensures !died && Valid() &&
        k == old(k).(tasks := old(k.tasks)[c := old(k.tasks[c]).(waiters := old(k.tasks[c].waiters) + [me])])
      ensures Pic() == old(Pic()).(n := old(Pic()).n[tasks[c].queue := old(tasks[c].queue.nodes) + [e]])
    {
      hide Pool, Shows;
      EnterQueueShows(Pic(), k, c, e, me);
      var queue := tasks[c].queue;
      assert e !in queue.nodes;
      hide Outside;
      var there := ContainsIn(queue, e);
      died := false;
      if !there { died := Add(queue, e); }
      k := k.(tasks := k.tasks[c := k.tasks[c].(waiters := k.tasks[c].waiters + [me])]);
    }

    lemma ChildFacts(c: Pid)
      requires Valid() && c in k.tasks
      ensures c in tasks && tasks[c].queue in lists && tasks[c].queue.site == QueueHead(c) &&
        tasks[c].exited == k.tasks[c].exited
      ensures global in lists && global.site == GlobalHead
      ensures forall p :: p in tasks ==> tasks[p].queue.site == QueueHead(p)
    {
      hide Pool;
      HeadsExist(Pic(), k);
      QueueSites(Pic(), k);
      QueueFits(Pic(), k, c);
      LinkFacts(Pic(), k, c);
    }

    /** The two links of a new wait blob. */
    method NewBlob(me: Pid, c: Pid) returns (e: Elem, b: Elem)
      requires Valid()
      modifies this`elems
      ensures Valid() && elems == old(elems) + {e, b} && fresh({e, b}) && e != b
      ensures e.site == EntryOf(me, c) && b.site == BlobOf(me, c) && Outside(Nodes(lists), e) &&
        Outside(Nodes(lists), b)
    {
      hide Valid, Outside;
      e := NewElem(EntryOf(me, c));
      b := NewElem(BlobOf(me, c));
    }

    /** The entry of a blob that is in the local list already. */
    method EnterQueueFor(me: Pid, c: Pid, blobs: List, e: Elem, b: Elem, ghost pic: Picture) returns (died: bool)
      requires Valid() && c in k.tasks && c in tasks && e in elems && e.site == EntryOf(me, c) &&
        b.site == BlobOf(me, c) && e != b
      requires InProgress(pic, me, blobs) && BlobsShow(pic, me, blobs) && Outside(pic.n, b) && Outside(pic.n, e) &&
        global in pic.n && global != blobs
      requires blobs in lists && Pic() == pic.(n := pic.n[blobs := pic.n[blobs] + [b]], entries := pic.entries[b := e])
      modifies this`k, lists, elems
      ensures !died && Valid() && InProgress(Pic(), me, blobs) && BlobsShow(Pic(), me, blobs)
      ensures Pids(blobs.nodes) == Pids(pic.n[blobs]) + [c] && global.nodes == pic.n[global]
      ensures k == old(k).(tasks := old(k.tasks)[c := old(k.tasks[c]).(waiters := old(k.tasks[c].waiters) + [me])])
    {
      hide Valid, Outside, BlobsShow, Pids, Nodes, InProgress;
      ChildFacts(c);
      InProgressFacts(pic, me, blobs);
      OutsideAfter(pic.n, blobs, b, e);
      ghost var before := Pic();
      died := AddWaitQueueEntry(me, c, e);
      EntryShows(pic, me, blobs, b, e, c, before, Pic());
    }

    method EnterBlob(me: Pid, c: Pid, blobs: List, e: Elem, b: Elem) returns (died: bool)
      requires Valid() && c in k.tasks && InProgress(Pic(), me, blobs) && BlobsShow(Pic(), me, blobs)
      requires e in elems && b in elems && e.site == EntryOf(me, c) && b.site == BlobOf(me, c) && e != b
      requires Outside(Nodes(lists), e) && Outside(Nodes(lists), b)
      modifies this`entries, this`k, lists, elems
      ensures !died && Valid() && InProgress(Pic(), me, blobs) && BlobsShow(Pic(), me, blobs)
      ensures Pids(blobs.nodes) == old(Pids(blobs.nodes)) + [c] && global.nodes == old(global.nodes)
      ensures k == old(k).(tasks := old(k.tasks)[c := old(k.tasks[c]).(waiters := old(k.tasks[c].waiters) + [me])])
    {
      hide Valid, Outside, BlobsShow, Pids, Nodes, InProgress;
      ghost var pic := Pic();
      ChildFacts(c);
      InProgressFacts(pic, me, blobs);
      died := AppendBlob(me, blobs, b, e);
      var entryDied := EnterQueueFor(me, c, blobs, e, b, pic);
      died := died || entryDied;
    }

    /** A blob for the child `c`: a node in the local list, and an entry in the child's wait queue. */
    method AddBlob(me: Pid, c: Pid, blobs: List) returns (died: bool)
      requires Valid() && c in k.tasks && InProgress(Pic(), me, blobs) && BlobsShow(Pic(), me, blobs)
      modifies this`elems, this`entries, this`k, lists, elems
      ensures !died && Valid() && InProgress(Pic(), me, blobs) && BlobsShow(Pic(), me, blobs)
      ensures Pids(blobs.nodes) == old(Pids(blobs.nodes)) + [c] && global.nodes == old(global.nodes) &&
        fresh(elems - old(elems))
      ensures k == old(k).(tasks := old(k.tasks)[c := old(k.tasks[c]).(waiters := old(k.tasks[c].waiters) + [me])])
    {
      hide Valid, Outside, BlobsShow, Pids, Nodes, InProgress;
      ghost var pic := Pic();
      var e, b := NewBlob(me, c);
      BlobsShowNew(pic, me, blobs, Pic());
      InProgressStays(pic, me, blobs, Pic());
      died := EnterBlob(me, c, blobs, e, b);
    }

    lemma RecordFacts(p: Pid)
      requires Valid() && p in k.tasks
      ensures p in tasks && tasks[p].ppid == k.tasks[p].ppid && tasks[p].tgid == k.tasks[p].tgid &&
        tasks[p].exited == k.tasks[p].exited
      ensures tasks[p].wait.None? <==> k.tasks[p].wait.None?
    {
      hide Pool;
      WaitOfTask(Pic(), k, p);
    }

    /** One task of the scan of `call_wait4`: is it a child to wait for, and has it exited? A live one gets a blob. */
    method Consider(me: Pid, hint: int, nohang: bool, p: Pid, blobs: List) returns (f: Finding, died: bool)
      requires Valid() && p in k.tasks && InProgress(Pic(), me, blobs) && BlobsShow(Pic(), me, blobs)
      modifies this`elems, this`entries, this`k, lists, elems
      ensures !died && Valid() && InProgress(Pic(), me, blobs) && BlobsShow(Pic(), me, blobs)
      ensures global.nodes == old(global.nodes) && fresh(elems - old(elems))
      ensures f == if !Wanted(old(k.tasks), me, hint, p) then NotWanted else if old(k.tasks[p].exited) then HasExited
        else IsLive
      ensures if f == IsLive && !nohang
        then Pids(blobs.nodes) == old(Pids(blobs.nodes)) + [p]
             && k == old(k).(tasks := old(k.tasks)[p := old(k.tasks[p]).(waiters := old(k.tasks[p].waiters) + [me])])
        else Pids(blobs.nodes) == old(Pids(blobs.nodes)) && k == old(k)
    {
      hide Valid, BlobsShow, Pids, Nodes, InProgress;
      RecordFacts(p);
      died := false;
      if !WantedRecord(tasks[p], me, hint, p) { return NotWanted, false; }
      if tasks[p].exited { return HasExited, false; }
      f := IsLive;
      if !nohang { died := AddBlob(me, p, blobs); }
    }

    lemma GlobalFacts()
      requires Valid()
      ensures global in lists && k.registered == Pids(global.nodes) && |k.registered| == |global.nodes|
      ensures forall i :: 0 <= i < |global.nodes| ==>
        PidOf(global.nodes[i]) == k.registered[i] && k.registered[i] in k.tasks
    {
      hide Pool;
      HeadsExist(Pic(), k);
      forall i | 0 <= i < |global.nodes| ensures PidOf(global.nodes[i]) == k.registered[i] &&
        k.registered[i] in k.tasks {
        assert global.nodes[i] in global.nodes && Fits(Pic(), global, global.nodes[i]);
      }
    }

    /** The scan of `call_wait4` by `me` has dealt with the first `i` registered tasks of the kernel `x.k`. */
    ghost predicate Scanning(x: ScanOf, i: nat, ret: int, blobs: List, bs: seq<Pid>)
      reads this, lists, elems
    {
      && Valid() && InProgress(Pic(), x.me, blobs) && BlobsShow(Pic(), x.me, blobs) && bs == Pids(blobs.nodes)
      && k == x.k.(tasks := Entered(x.k.tasks, x.me, bs)) && Scanned(x.k, x.me, x.hint, x.nohang, i, ret, bs)
      && Distinct(x.k.registered) && i <= |global.nodes| == |x.k.registered|
    }

    /** The beginning of the scan: no blobs. */
    method BeginScan(me: Pid, ghost x: ScanOf) returns (blobs: List)
      requires Valid() && me in k.tasks && k.tasks[me].wait.None? && Distinct(k.registered) && x.me == me && x.k == k
      modifies this`lists
      ensures Scanning(x, 0, -1, blobs, []) && fresh(blobs) && lists == old(lists) + {blobs} &&
        global.nodes == old(global.nodes)
    {
      hide Valid, BlobsShow, Pids, Wanted, Filter, Scanned, Entered, Distinct;
      RecordFacts(me);
      GlobalFacts();
      blobs := NewList(BlobHead(me));
      NoBlobsShow(Pic(), me, blobs);
      ScanNothing(k, me, x.hint, x.nohang);
      EnterNothing(k.tasks, me);
    }

    /** One registered task. */
    method ScanOne(ghost x: ScanOf, me: Pid, hint: int, nohang: bool, ghost i: nat, ret: int, blobs: List,
                   ghost bs: seq<Pid>, cursor: Elem)
      returns (f: Finding, next: int, died: bool, ghost more: seq<Pid>)
      requires Scanning(x, i, ret, blobs, bs) && x == ScanOf(x.k, me, hint, nohang) && i < |global.nodes| &&
        cursor == global.nodes[i]
      modifies this`elems, this`entries, this`k, lists, elems
      ensures !died && global.nodes == old(global.nodes) && fresh(elems - old(elems))
      ensures f != HasExited ==> Scanning(x, i + 1, next, blobs, more)
      ensures f == HasExited ==>
        && Valid() && InProgress(Pic(), me, blobs) && BlobsShow(Pic(), me, blobs) && more == Pids(blobs.nodes)
        && k == x.k.(tasks := Entered(x.k.tasks, me, more)) && Scan(next, more) == ScanChildren(x.k, me, hint, nohang)
    {
      hide Valid, BlobsShow, Pids, Nodes, Wanted, Filter, Scanned, Entered, Distinct, InProgress;
      GlobalFacts();
      var p := PidOf(cursor);
      EnteredKeys(x.k.tasks, me, bs);
      EnteredAt(x.k.tasks, me, bs, hint, p);
      ScanStep(x.k, me, hint, nohang, i, ret, bs);
      more, next := bs, ret;
      f, died := Consider(me, hint, nohang, p, blobs);
      if f == HasExited {
        next := p;
      } else if f == IsLive {
        next := 0;
        if !nohang {
          EnterOne(x.k.tasks, me, bs, p);
          more := bs + [p];
        }
      }
    }

    lemma GlobalLinks(x: ScanOf, i: nat, ret: int, blobs: List, bs: seq<Pid>)
      requires Scanning(x, i, ret, blobs, bs)
      ensures global.next == if global.nodes == [] then null else global.nodes[0]
      ensures i < |global.nodes| ==>
        global.nodes[i].next == if i + 1 < |global.nodes| then global.nodes[i + 1] else null
    {
      hide Shows, Pool;
      GlobalFacts();
      FirstNode(lists, elems, global);
      if i < |global.nodes| { NextNode(lists, elems, global, i); }
    }

    lemma ScanIsOver(x: ScanOf, i: nat, ret: int, blobs: List, bs: seq<Pid>)
      requires Scanning(x, i, ret, blobs, bs) && i == |global.nodes|
      ensures Valid() && InProgress(Pic(), x.me, blobs) && BlobsShow(Pic(), x.me, blobs) && bs == Pids(blobs.nodes)
      ensures k == x.k.(tasks := Entered(x.k.tasks, x.me, bs)) &&
        Scan(ret, bs) == ScanChildren(x.k, x.me, x.hint, x.nohang)
    {
      hide Valid, Scanned, BlobsShow, Pids, Entered;
      ScanEverything(x.k, x.me, x.hint, x.nohang, ret, bs);
    }

    /** The scan of the global task list in `call_wait4`: entries are made while it goes. */
    method ScanForChildren(me: Pid, hint: int, nohang: bool)
      returns (ret: int, blobs: List, died: bool, ghost bs: seq<Pid>)
      requires Valid() && me in k.tasks && k.tasks[me].wait.None? && Distinct(k.registered)
      modifies this`lists, this`elems, this`entries, this`k, lists, elems
      ensures !died && Valid() && InProgress(Pic(), me, blobs) && BlobsShow(Pic(), me, blobs) && bs == Pids(blobs.nodes)
      ensures Scan(ret, bs) == ScanChildren(old(k), me, hint, nohang)
      ensures k == old(k).(tasks := Entered(old(k.tasks), me, bs))
      ensures fresh(lists - old(lists)) && fresh(elems - old(elems))
      ensures (bs == [] ==> Prompt(old(k), me, hint, nohang, ret)) && (nohang ==> bs == [])
      ensures AllLive(old(k), me, hint, bs)
    {
      hide Scanning, Valid, BlobsShow, Pids, Entered, InProgress, ScanChildren, Scanned, Nodes, Distinct, Prompt, Asked;
      AskedInScan(k, me, hint, nohang);
      ghost var x := ScanOf(k, me, hint, nohang);
      blobs := BeginScan(me, x);
      ret, bs, died := -1, [], false;
      GlobalLinks(x, 0, ret, blobs, bs);
      var cursor := global.next;
      ghost var i := 0;
      while cursor != null
        invariant 0 <= i <= |global.nodes| && cursor == (if i < |global.nodes| then global.nodes[i] else null)
        invariant !died && Scanning(x, i, ret, blobs, bs)
        invariant lists == old(lists) + {blobs} && fresh(blobs) && fresh(elems - old(elems))
        decreases |global.nodes| - i
      {
        GlobalLinks(x, i, ret, blobs, bs);
        var following := cursor.next;
        assert following == if i + 1 < |global.nodes| then global.nodes[i + 1] else null;
        var f;
        f, ret, died, bs := ScanOne(x, me, hint, nohang, i, ret, blobs, bs, cursor);
        if f == HasExited { return; }
        cursor, i := following, i + 1;
      }
      ScanIsOver(x, i, ret, blobs, bs);
    }

    lemma NodeFacts(p: Pid)
      requires Valid() && p in k.tasks
      ensures p in tasks && global in lists && (tasks[p].node in global.nodes <==> p in k.registered)
    {
      hide Pool, Shows, Heads, Pids;
      HeadsExist(Pic(), k);
      NodeIsRegistered(Pic(), k, p);
    }

    /** `list_delete` of a registration that is in the global task list. */
    method DropNode(p: Pid) returns (died: bool)
      requires Valid() && p in k.tasks && p in tasks && global in lists && tasks[p].node in global.nodes &&
        Distinct(k.registered)
      modifies this`k, lists, elems
      ensures !died && Valid() && k == old(k).(registered := Filter(old(k.registered), Other(p)))
    {
      hide Pool, Shows, Heads, Pids, Outside, Filter, Without, Distinct;
      HeadsExist(Pic(), k);
      NodeIsRegistered(Pic(), k, p);
      ghost var pic, j := Pic(), 0;
      died, j := Remove(global, tasks[p].node);
      UnregisterShows(pic, k, j);
      k := k.(registered := Filter(k.registered, Other(p)));
    }

    /** `unregister_task`: the registration leaves the global task list, if it is there. */
    method UnregisterTask(p: Pid) returns (died: bool)
      requires Valid() && p in k.tasks && Distinct(k.registered)
      modifies this`k, lists, elems
      ensures !died && Valid() && k == old(k).(registered := Filter(old(k.registered), Other(p)))
    {
      hide Pool, Shows, Filter, Distinct;
      NodeFacts(p);
      var there := ContainsIn(global, tasks[p].node);
      died := false;
      if there {
        died := DropNode(p);
      } else {
        FilterKeepsAll(k.registered, Other(p));
        k := k.(registered := Filter(k.registered, Other(p)));
      }
    }

    /** A record gets a wait, or loses it. */
    method SetWait(p: Pid, f: Option<Suspended>, ghost w: Option<Wait>)
      requires Valid() && p in k.tasks && p in tasks && WaitShows(Pic(), p, f, w)
      modifies this`tasks, this`k
      ensures Valid() && k == old(k).(tasks := old(k.tasks)[p := old(k.tasks[p]).(wait := w)]) &&
        tasks == old(tasks)[p := old(tasks[p]).(wait := f)]
    {
      hide Pool, Shows, WaitShows;
      WaitOfTask(Pic(), k, p);
      RecordShows(Pic(), k, p, tasks[p].(wait := f), k.tasks[p].(wait := w));
      tasks := tasks[p := tasks[p].(wait := f)];
      k := k.(tasks := k.tasks[p := k.tasks[p].(wait := w)]);
    }

    /** The caller of a wait4 that has blobs becomes interruptible; its frame stays behind. */
    method GoToSleep(me: Pid, ret: int, blobs: List, ghost bs: seq<Pid>) returns (died: bool)
      requires Valid() && me in k.tasks && InProgress(Pic(), me, blobs) && BlobsShow(Pic(), me, blobs) &&
        bs == Pids(blobs.nodes)
      modifies this`tasks, this`k
      ensures died <==> !Allowed(old(k.tasks[me].state), Interruptible)
      ensures Valid() && k == old(k).(tasks := old(k.tasks)[me := old(k.tasks[me]).(state := Interruptible,
        wait := Some(Wait(ret, bs)))])
    {
      hide Valid, BlobsShow, Pids, Nodes;
      ghost var pic := Pic();
      died := TransitState(me, Interruptible);
      BlobsIgnoreRecords(pic, tasks, me, blobs);
      SetWait(me, Some(Suspended(ret, blobs)), Some(Wait(ret, bs)));
    }

    /** Whether the local blob list is empty. */
    method HasBlobs(blobs: List) returns (some: bool)
      requires Valid() && blobs in lists
      ensures some <==> Pids(blobs.nodes) != []
    {
      hide Shows, Pool;
      FirstNode(lists, elems, blobs);
      PidsEmpty(blobs.nodes);
      some := blobs.next != null;
    }

    ghost method NoteReaped(ret: Pid)
      requires Valid()
      modifies this`k
      ensures Valid() && k == old(k).(reaped := old(k.reaped) + [ret])
    {
      hide Pool;
      k := k.(reaped := k.reaped + [ret]);
    }

    /** wait4 is about to return an exited child: it is unregistered. */
    method ReapTask(ret: Pid) returns (died: bool)
      requires Valid() && ret in k.tasks && Distinct(k.registered)
      modifies this`k, lists, elems
      ensures !died && Valid()
      ensures k == old(k).(registered := Filter(old(k.registered), Other(ret)), reaped := old(k.reaped) + [ret])
    {
      hide Valid, Filter, Distinct;
      died := UnregisterTask(ret);
      NoteReaped(ret);
    }

    method Who() returns (me: Pid)
      requires Valid() && k.current.Some?
      ensures me == k.current.value
    {
      me := current.value;
    }

    /** The caller goes to sleep and another task is dispatched. */
    method FallAsleep(me: Pid, ret: int, blobs: List, ghost bs: seq<Pid>, ghost k0: Kernel) returns (died: bool)
      requires Valid() && InProgress(Pic(), me, blobs) && BlobsShow(Pic(), me, blobs) && bs == Pids(blobs.nodes)
      requires CanAct(k0) && k0.current.value == me && k0.tasks[me].state == Running &&
        k == k0.(tasks := Entered(k0.tasks, me, bs))
      requires Trapping(Sleep(k0, Wait(ret, bs)))
      modifies this`tasks, this`k, this`current, lists, elems
      ensures !died && Valid() && k == Trap(Sleep(k0, Wait(ret, bs)))
    {
      hide Valid, Trap, Trapping, Entered, Sleep, Pids, InProgress, BlobsShow, Nodes;
      SleepIsEnter(k0, Wait(ret, bs));
      EnteredKeys(k0.tasks, me, bs);
      died := GoToSleep(me, ret, blobs, bs);
      assert k == Sleep(k0, Wait(ret, bs));
      var trapDied := TrapHandler();
      died := died || trapDied;
    }

    /** `call_wait4` up to its return, or to the dispatch of another task if it sleeps; no assertion fails. */
    method CallWait4(hint: int, nohang: bool) returns (ret: int, slept: bool, died: bool)
      requires Valid() && Inv(k) && CanAct(k)
      modifies this, lists, elems
      ensures !died && Valid() && Inv(k) && slept == Sleeps(old(k), hint, nohang)
      ensures var w := Wait4(old(k), hint, nohang); if slept then Trapping(w) && k == Trap(w) else k == w
      ensures !slept ==> ret == ScanChildren(old(k), old(k.current.value), hint, nohang).ret
      ensures (!slept ==> Prompt(old(k), old(k.current.value), hint, nohang, ret)) && (nohang ==> !slept)
      ensures fresh(lists - old(lists)) && fresh(elems - old(elems))
    {
      hide Valid, Inv, ScanChildren, Trap, Trapping, Entered, Sleep, Filter, Distinct, Pids, InProgress, BlobsShow,
        Nodes, Prompt, Asked;
      ghost var k0 := k;
      ReadyToWait(k, hint, nohang);
      var me := Who();
      var blobs;
      ghost var bs;
      ret, blobs, died, bs := ScanForChildren(me, hint, nohang);
      InProgressIsList(Pic(), me, blobs);
      slept := HasBlobs(blobs);
      if slept {
        var sleepDied := FallAsleep(me, ret, blobs, bs, k0);
        died := died || sleepDied;
      } else {
        EnterNothing(k0.tasks, me);
        if ret > 0 {
          var reapDied := ReapTask(ret);
          died := died || reapDied;
        }
      }
    }

    // ---- the end of a wait4 ----

    /** `remove_wait_queue_entry`, on an entry that is in the wait queue of `c`. */
    method RemoveWaitQueueEntry(me: Pid, c: Pid, e: Elem) returns (died: bool, ghost j: nat)
      requires Valid() && c in k.tasks && c in tasks && e in elems && e.site == EntryOf(me, c) &&
        e in tasks[c].queue.nodes
      requires Distinct(k.tasks[c].waiters) && me in tasks && tasks[me].wait.None?
      modifies this`k, lists, elems
      ensures !died && Valid() &&
        k == old(k).(tasks := old(k.tasks)[c := old(k.tasks[c]).(waiters := Filter(old(k.tasks[c].waiters),
          Other(me)))])
      ensures tasks[c].queue in lists && j < |old(tasks[c].queue.nodes)|
      ensures Pic() == old(Pic()).(n := old(Pic()).n[tasks[c].queue := Without(old(tasks[c].queue.nodes), j)])
    {
      hide Pool, Shows, Outside, Filter, Without, Distinct;
      ghost var pic := Pic();
      QueueFits(pic, k, c);
      var queue := tasks[c].queue;
      var there := ContainsIn(queue, e);
      died, j := false, 0;
      if there { died, j := Remove(queue, e); }
      LeaveQueueShows(pic, k, c, j, me);
      k := k.(tasks := k.tasks[c := k.tasks[c].(waiters := Filter(k.tasks[c].waiters, Other(me)))]);
    }

    /** `list_fetch` from the local blob list. */
    method FetchBlob(me: Pid, blobs: List) returns (b: Elem?)
      requires Valid() && InProgress(Pic(), me, blobs)
      modifies lists, elems
      ensures Valid() && (b == null <==> old(blobs.nodes) == [])
      ensures b == null ==> Nodes(lists) == old(Nodes(lists))
      ensures b != null ==> b == old(blobs.nodes)[0]
      ensures b != null ==> Nodes(lists) == old(Nodes(lists))[blobs := old(blobs.nodes)[1..]]
    {
      hide Pool, Shows, Outside;
      if blobs.nodes != [] { FetchBlobShows(Pic(), k, me, blobs); }
      b := Take(blobs);
    }

    /** The first blob of a wait4: its child and its entry. */
    lemma FirstBlob(me: Pid, blobs: List)
      requires Valid() && InProgress(Pic(), me, blobs) && BlobsShow(Pic(), me, blobs)
      ensures blobs.nodes != [] ==>
        var b := blobs.nodes[0]; var c := PidOf(b);
        && c in k.tasks && c in tasks && b in entries && entries[b] in elems && entries[b].site == EntryOf(me, c)
        && tasks[c].queue in lists && tasks[c].queue.site == QueueHead(c) && entries[b] in tasks[c].queue.nodes &&
          tasks[c].queue != blobs
        && tasks[c].exited == k.tasks[c].exited && Pids(blobs.nodes)[0] == c &&
          Pids(blobs.nodes[1..]) == Pids(blobs.nodes)[1..]
      ensures forall p :: p in tasks ==> tasks[p].queue.site == QueueHead(p)
    {
      hide Pool;
      QueueSites(Pic(), k);
      if blobs.nodes != [] {
        var b := blobs.nodes[0];
        assert b in blobs.nodes && BlobShows(Pic(), me, b);
        PidsTail(blobs.nodes);
        LinkFacts(Pic(), k, PidOf(b));
      }
    }

    /** The entry of a blob that is no longer in the local list. */
    method LeaveQueueFor(me: Pid, c: Pid, blobs: List, e: Elem, ghost pic: Picture) returns (died: bool)
      requires Valid() && c in k.tasks && c in tasks && e in elems && e.site == EntryOf(me, c) &&
        e in tasks[c].queue.nodes
      requires Distinct(k.tasks[c].waiters) && InProgress(pic, me, blobs) && BlobsShow(pic, me, blobs)
      requires pic.n[blobs] != [] && Distinct(Pids(pic.n[blobs])) && PidOf(pic.n[blobs][0]) == c &&
        tasks[c].queue != blobs
      requires blobs in lists && Pic() == pic.(n := pic.n[blobs := pic.n[blobs][1..]])
      modifies this`k, lists, elems
      ensures !died && Valid() && InProgress(Pic(), me, blobs) && BlobsShow(Pic(), me, blobs) &&
        blobs.nodes == pic.n[blobs][1..]
      ensures k == old(k).(tasks := old(k.tasks)[c := old(k.tasks[c]).(waiters := Filter(old(k.tasks[c].waiters),
        Other(me)))])
    {
      hide Valid, BlobsShow, Pids, Outside, Filter, Without, Distinct, Nodes, InProgress;
      ChildFacts(c);
      InProgressFacts(pic, me, blobs);
      InProgressStays(pic, me, blobs, Pic());
      ghost var before := Pic();
      ghost var j;
      died, j := RemoveWaitQueueEntry(me, c, e);
      BlobsShowRest(pic, me, blobs, c, j);
      InProgressStays(before, me, blobs, Pic());
    }

    /** One blob: whether its child has exited, and its entry leaves the child's wait queue. */
    method RemoveBlob(me: Pid, blobs: List) returns (c: Option<Pid>, exited: bool, died: bool)
      requires Valid() && InProgress(Pic(), me, blobs) && BlobsShow(Pic(), me, blobs) && Distinct(Pids(blobs.nodes))
      requires forall p :: p in k.tasks ==> Distinct(k.tasks[p].waiters)
      modifies this`k, lists, elems
      ensures !died && Valid() && InProgress(Pic(), me, blobs) && BlobsShow(Pic(), me, blobs)
      ensures c.None? <==> old(Pids(blobs.nodes)) == []
      ensures c.None? ==> k == old(k)
      ensures c.Some? ==>
        && c.value == old(Pids(blobs.nodes))[0] && Pids(blobs.nodes) == old(Pids(blobs.nodes))[1..]
        && c.value in old(k.tasks) && exited == old(k.tasks)[c.value].exited
        && var t := old(k.tasks)[c.value];
           k == old(k).(tasks := old(k.tasks)[c.value := t.(waiters := Filter(t.waiters, Other(me)))])
    {
      hide Valid, BlobsShow, Pids, Outside, Filter, Without, Distinct, Nodes, InProgress;
      ghost var pic := Pic();
      PidsEmpty(blobs.nodes);
      InProgressFacts(pic, me, blobs);
      FirstBlob(me, blobs);
      var b := FetchBlob(me, blobs);
      died, exited := false, false;
      if b == null {
        assert Pic() == pic;
        return None, false, false;
      }
      c := Some(PidOf(b));
      exited := tasks[c.value].exited;
      died := LeaveQueueFor(me, c.value, blobs, entries[b], pic);
    }

    /** The loop at the end of `call_wait4`: it fetches every blob, and the first exited child is the result. */
    method LeaveQueues(me: Pid, first: int, blobs: List, ghost w: Wait) returns (ret: int, died: bool)
      requires Valid() && InProgress(Pic(), me, blobs) && BlobsShow(Pic(), me, blobs) && Pids(blobs.nodes) == w.blobs &&
        Distinct(w.blobs)
      requires first == w.ret >= 0 && forall p :: p in k.tasks ==> Distinct(k.tasks[p].waiters)
      modifies this`k, lists, elems
      ensures !died && Valid() && ret == Result(old(k.tasks), w) &&
        k == old(k).(tasks := Left(old(k.tasks), me, w.blobs))
    {
      hide Valid, InProgress, BlobsShow, Pids, Left, Filter, Distinct;
      ghost var ts := k.tasks;
      ghost var done: seq<Pid>, rest := [], w.blobs;
      ret, died := first, false;
      LeaveNothing(ts, me);
      while true
        invariant !died && Valid() && InProgress(Pic(), me, blobs) && BlobsShow(Pic(), me, blobs)
        invariant w.blobs == done + rest && rest == Pids(blobs.nodes) && Distinct(rest)
        invariant ret >= 0 && k == old(k).(tasks := Left(ts, me, done))
        invariant (if ret > 0 then ret else FirstExited(ts, rest)) == Result(ts, w)
        decreases |rest|
      {
        LeftStaysDistinct(ts, me, done);
        LeftKeys(ts, me, done);
        DistinctInts(rest, Pids(blobs.nodes));
        var c, exited;
        c, exited, died := RemoveBlob(me, blobs);
        if c.None? { break; }
        LeaveOne(ts, me, done, c.value);
        RestIsDistinct(rest, 1);
        if ret <= 0 && exited { ret := c.value; }
        done, rest := done + [c.value], rest[1..];
      }
      assert done == w.blobs;
    }

    /** The frame of a pending wait4 becomes active again. */
    method TakeUpWait(me: Pid) returns (first: int, blobs: List)
      requires Valid() && me in k.tasks && k.tasks[me].wait.Some?
      modifies this`tasks, this`k
      ensures Valid() && k == old(k).(tasks := old(k.tasks)[me := old(k.tasks[me]).(wait := None)])
      ensures InProgress(Pic(), me, blobs) && BlobsShow(Pic(), me, blobs)
      ensures var w := old(k.tasks[me].wait.value); first == w.ret && Pids(blobs.nodes) == w.blobs
    {
      hide Pool, Shows, BlobsShow, Pids;
      ghost var pic := Pic();
      WaitOfTask(pic, k, me);
      first, blobs := tasks[me].wait.value.ret, tasks[me].wait.value.blobs;
      BlobsAreList(pic, me, blobs);
      SetWait(me, None, None);
      BlobsIgnoreRecords(pic, tasks, me, blobs);
    }

    /**
      `call_wait4` after its yield: it leaves every wait queue it entered and returns an exited child; no assertion
      fails.
     */
    method ResumeWait4() returns (ret: int, died: bool)
      requires Valid() && Inv(k) && CanResume(k)
      modifies this`tasks, this`k, lists, elems
      ensures !died && Valid() && Inv(k) && k == Resume(old(k))
      ensures ret > 0 && Reapable(old(k.tasks), old(k.registered), old(k.current.value), ret)
    {
      hide Valid, Inv, InProgress, BlobsShow, Pids, Left, Resumed, Filter, Result, Distinct;
      ghost var k0 := k;
      ResumeKeepsInv(k);
      WaitIsLinked(k);
      WaitIsDistinct(k);
      RegisteredIsSound(k);
      var me := Who();
      ghost var w := k.tasks[me].wait.value;
      var first, blobs := TakeUpWait(me);
      ResultIgnoresWait(k0.tasks, me, w);
      ret, died := LeaveQueues(me, first, blobs, w);
      ResumeIsLeaveAfter(k0);
      LeftKeys(k0.tasks[me := k0.tasks[me].(wait := None)], me, w.blobs);
      var reapDied := ReapTask(ret);
      died := died || reapDied;
    }
  }
}
