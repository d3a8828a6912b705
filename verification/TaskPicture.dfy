/**
  The kernel's lists and task records as one value, and how they show a kernel of `Scheduler`: which element belongs to
  which task, and what each list stands for.
 */
module TaskPicture {
  import opened Collections
  import opened IntrusiveList
  import opened Scheduler

  /** The local state of a `call_wait4` that has yielded. */
  datatype Suspended = Suspended(ret: int, blobs: List)

  /**
    A task's hart and virtual machine, as far as the kernel is concerned, with the list structures embedded in them.
   */
  datatype Record = Record(
    ppid: Pid, tgid: Pid, state: TaskState, nonStop: TaskState, exited: bool,
    list: Elem, node: Elem, queue: List, wait: Option<Suspended>)

  /**
    `n` is what the lists stand for; `entries` leads from a wait blob to the wait-queue entry in the same structure.
   */
  datatype Picture = Picture(
    tasks: map<Pid, Record>, running: List, blocking: List, exiting: List, global: List,
    entries: map<Elem, Elem>, n: map<List, seq<Elem>>, elems: set<Elem>)

  /** The task that the structure around an element is about. */
  function PidOf(x: Elem): int {
    match x.site
    case HartOf(p) => p
    case VmOf(p) => p
    case EntryOf(p, _) => p
    case BlobOf(_, p) => p
    case _ => 0
  }

  function Pids(s: seq<Elem>): seq<int> {
    seq(|s|, i requires 0 <= i < |s| => PidOf(s[i]))
  }

  predicate IsScheduling(s: Site) { s.RunningHead? || s.BlockingHead? || s.ExitingHead? }

  /** The elements that a list may hold. */
  ghost predicate Fits(pic: Picture, l: List, x: Elem) {
    match l.site
    case QueueHead(c) => x.site.EntryOf? && x.site.child == c
    case BlobHead(w) => x.site.BlobOf? && x.site.waiter == w
    case GlobalHead => x.site.VmOf? && PidOf(x) in pic.tasks && pic.tasks[PidOf(x)].node == x
    case _ => IsScheduling(l.site) && x.site.HartOf? && PidOf(x) in pic.tasks && pic.tasks[PidOf(x)].list == x
  }

  ghost predicate AllFit(pic: Picture) {
    forall l, x :: l in pic.n && x in pic.n[l] ==> Fits(pic, l, x)
  }

  ghost predicate Heads(pic: Picture) {
    && {pic.running, pic.blocking, pic.exiting, pic.global} <= pic.n.Keys
    && pic.running.site == RunningHead && pic.blocking.site == BlockingHead
    && pic.exiting.site == ExitingHead && pic.global.site == GlobalHead
    && forall l :: l in pic.n ==>
         && (l.site.RunningHead? ==> l == pic.running) && (l.site.BlockingHead? ==> l == pic.blocking)
         && (l.site.ExitingHead? ==> l == pic.exiting) && (l.site.GlobalHead? ==> l == pic.global)
  }

  /** A wait blob of `p`: its entry is in the wait queue of the child it is about. */
  ghost predicate BlobShows(pic: Picture, p: Pid, b: Elem) {
    && b in pic.entries && PidOf(b) in pic.tasks
    && var e := pic.entries[b]; var c := PidOf(b);
       e in pic.elems && e.site == EntryOf(p, c) && pic.tasks[c].queue in pic.n && e in pic.n[pic.tasks[c].queue]
  }

  ghost predicate BlobsShow(pic: Picture, p: Pid, blobs: List) {
    && blobs in pic.n && blobs.site == BlobHead(p)
    && forall b :: b in pic.n[blobs] ==> BlobShows(pic, p, b)
  }

  ghost predicate WaitShows(pic: Picture, p: Pid, w: Option<Suspended>, v: Option<Wait>) {
    match w
    case None => v.None?
    case Some(f) =>
      v.Some? && BlobsShow(pic, p, f.blobs) && v.value.ret == f.ret && v.value.blobs == Pids(pic.n[f.blobs])
  }

  /** The record and the lists of a task show the task `t`. */
  ghost predicate TaskShows(pic: Picture, p: Pid, t: Task) {
    && p in pic.tasks
    && var r := pic.tasks[p];
       && t.ppid == r.ppid && t.tgid == r.tgid && t.state == r.state && t.nonStop == r.nonStop && t.exited == r.exited
       && r.list.site == HartOf(p) && r.list in pic.elems && r.node.site == VmOf(p) && r.node in pic.elems
       && r.queue in pic.n && r.queue.site == QueueHead(p) && t.waiters == Pids(pic.n[r.queue])
       && WaitShows(pic, p, r.wait, t.wait)
  }

  ghost predicate TasksShow(pic: Picture, ts: map<Pid, Task>) {
    pic.tasks.Keys == ts.Keys && forall p :: p in ts ==> TaskShows(pic, p, ts[p])
  }

  ghost predicate ListsShow(pic: Picture, k: Kernel)
    requires Heads(pic)
  {
    && k.running == Pids(pic.n[pic.running]) && k.blocking == Pids(pic.n[pic.blocking])
    && k.exiting == Pids(pic.n[pic.exiting]) && k.registered == Pids(pic.n[pic.global])
  }

  ghost predicate Shows(pic: Picture, k: Kernel) {
    Heads(pic) && AllFit(pic) && TasksShow(pic, k.tasks) && ListsShow(pic, k)
  }

  // ---- what a picture that shows a kernel says ----

  lemma HeadsExist(pic: Picture, k: Kernel)
    requires Shows(pic, k)
    ensures {pic.running, pic.blocking, pic.exiting, pic.global} <= pic.n.Keys && Heads(pic)
    ensures pic.running != pic.blocking && pic.running != pic.exiting && pic.blocking != pic.exiting
    ensures k.exiting == Pids(pic.n[pic.exiting]) && k.running == Pids(pic.n[pic.running])
    ensures k.blocking == Pids(pic.n[pic.blocking]) && k.registered == Pids(pic.n[pic.global])
  {
  }

  lemma WaitOfTask(pic: Picture, k: Kernel, p: Pid)
    requires Shows(pic, k) && p in k.tasks
    ensures p in pic.tasks && WaitShows(pic, p, pic.tasks[p].wait, k.tasks[p].wait)
    ensures var r, t := pic.tasks[p], k.tasks[p];
      t.ppid == r.ppid && t.tgid == r.tgid && t.state == r.state && t.nonStop == r.nonStop && t.exited == r.exited
  {
    assert TaskShows(pic, p, k.tasks[p]);
  }

  /** What the record of a task and its links are. */
  lemma LinkFacts(pic: Picture, k: Kernel, p: Pid)
    requires Shows(pic, k) && p in k.tasks
    ensures p in pic.tasks && pic.tasks[p].list in pic.elems && pic.tasks[p].node in pic.elems &&
      pic.tasks[p].queue in pic.n
    ensures pic.tasks[p].state == k.tasks[p].state && pic.tasks[p].exited == k.tasks[p].exited &&
      pic.tasks[p].ppid == k.tasks[p].ppid
    ensures pic.tasks[p].list.site == HartOf(p) && pic.tasks[p].node.site == VmOf(p)
    ensures {pic.running, pic.blocking, pic.exiting, pic.global} <= pic.n.Keys
  {
    assert TaskShows(pic, p, k.tasks[p]);
  }

  lemma QueueOfTask(pic: Picture, k: Kernel, p: Pid)
    requires Shows(pic, k) && p in k.tasks
    ensures p in pic.tasks && pic.tasks[p].queue in pic.n && k.tasks[p].waiters == Pids(pic.n[pic.tasks[p].queue])
  {
    assert TaskShows(pic, p, k.tasks[p]);
  }

  lemma PidsEmpty(s: seq<Elem>)
    ensures Pids(s) == [] <==> s == []
  {
  }

  lemma PidsAt(s: seq<Elem>)
    ensures |Pids(s)| == |s| && forall i :: 0 <= i < |s| ==> Pids(s)[i] == PidOf(s[i])
  {
  }

  lemma SitesOf(pic: Picture, k: Kernel)
    requires Shows(pic, k)
    ensures pic.running.site == RunningHead && pic.blocking.site == BlockingHead && pic.exiting.site == ExitingHead &&
      pic.global.site == GlobalHead
    ensures pic.tasks.Keys == k.tasks.Keys
  {
  }

  lemma OnlyHeads(pic: Picture, l: List)
    requires Heads(pic) && l in pic.n
    ensures (l.site.RunningHead? ==> l == pic.running) && (l.site.BlockingHead? ==> l == pic.blocking)
    ensures (l.site.ExitingHead? ==> l == pic.exiting) && (l.site.GlobalHead? ==> l == pic.global)
  {
  }

  lemma FirstFits(pic: Picture, k: Kernel)
    requires Shows(pic, k) && pic.n[pic.running] != []
    ensures var x := pic.n[pic.running][0]; PidOf(x) in pic.tasks && pic.tasks[PidOf(x)].list == x
  {
    assert Fits(pic, pic.running, pic.n[pic.running][0]);
  }

  // ---- scheduling lists ----

  lemma PidsMembers(s: seq<Elem>, p: int)
    ensures p in Pids(s) <==> exists x :: x in s && PidOf(x) == p
  {
    if p in Pids(s) {
      var i :| 0 <= i < |s| && Pids(s)[i] == p;
      assert s[i] in s;
    }
    if x :| x in s && PidOf(x) == p {
      var i :| 0 <= i < |s| && s[i] == x;
      assert Pids(s)[i] == p;
    }
  }

  /** A task that is in no scheduling list has its link in no list at all. */
  lemma IdleLinkIsOutside(pic: Picture, k: Kernel, p: Pid)
    requires Shows(pic, k) && p in k.tasks && p !in k.running && p !in k.blocking && p !in k.exiting
    ensures Outside(pic.n, pic.tasks[p].list)
  {
    hide TasksShow, Heads, Pids;
    LinkFacts(pic, k, p);
    HeadsExist(pic, k);
    var x := pic.tasks[p].list;
    assert PidOf(x) == p;
    PidsMembers(pic.n[pic.running], p);
    PidsMembers(pic.n[pic.blocking], p);
    PidsMembers(pic.n[pic.exiting], p);
    forall l | l in pic.n ensures x !in pic.n[l] {
      assert x in pic.n[l] ==> Fits(pic, l, x);
      OnlyHeads(pic, l);
    }
  }

  /** The lists that hold no waits have changed, and no others. */
  ghost predicate OnlyScheduling(pic: Picture, n: map<List, seq<Elem>>) {
    n.Keys == pic.n.Keys && forall l :: l in n && (l.site.QueueHead? || l.site.BlobHead?) ==> n[l] == pic.n[l]
  }

  ghost predicate QueuesSited(pic: Picture) {
    forall d :: d in pic.tasks ==> pic.tasks[d].queue.site == QueueHead(d)
  }

  lemma BlobsIgnoreScheduling(pic: Picture, n: map<List, seq<Elem>>, p: Pid, blobs: List)
    requires BlobsShow(pic, p, blobs) && OnlyScheduling(pic, n) && QueuesSited(pic)
    ensures BlobsShow(pic.(n := n), p, blobs) && n[blobs] == pic.n[blobs]
  {
    forall b | b in n[blobs] ensures BlobShows(pic.(n := n), p, b) {
      assert BlobShows(pic, p, b);
    }
  }

  lemma TaskIgnoresScheduling(pic: Picture, n: map<List, seq<Elem>>, p: Pid, t: Task)
    requires TaskShows(pic, p, t) && OnlyScheduling(pic, n) && QueuesSited(pic)
    ensures TaskShows(pic.(n := n), p, t)
  {
    hide BlobsShow;
    if pic.tasks[p].wait.Some? { BlobsIgnoreScheduling(pic, n, p, pic.tasks[p].wait.value.blobs); }
  }

  lemma QueueKept(pic: Picture, ts: map<Pid, Task>, c: Pid)
    requires TasksShow(pic, ts) && c in ts
    ensures c in pic.tasks && pic.tasks[c].queue in pic.n && pic.tasks[c].queue.site == QueueHead(c)
  {
    assert TaskShows(pic, c, ts[c]);
  }

  lemma QueuesAreSited(pic: Picture, ts: map<Pid, Task>)
    requires TasksShow(pic, ts)
    ensures QueuesSited(pic)
  {
    hide TaskShows;
    forall d | d in pic.tasks ensures pic.tasks[d].queue.site == QueueHead(d) { QueueKept(pic, ts, d); }
  }

  /** Lists of tasks do not matter to the tasks themselves. */
  lemma TasksIgnoreScheduling(pic: Picture, n: map<List, seq<Elem>>, ts: map<Pid, Task>)
    requires TasksShow(pic, ts) && OnlyScheduling(pic, n)
    ensures TasksShow(pic.(n := n), ts)
  {
    hide TaskShows, OnlyScheduling, QueuesSited;
    QueuesAreSited(pic, ts);
    forall p | p in ts ensures TaskShows(pic.(n := n), p, ts[p]) {
      TaskIgnoresScheduling(pic, n, p, ts[p]);
    }
  }

  lemma HeadsStay(pic: Picture, n: map<List, seq<Elem>>)
    requires Heads(pic) && n.Keys == pic.n.Keys
    ensures Heads(pic.(n := n))
  {
  }

  lemma PidsAppend(s: seq<Elem>, x: Elem)
    ensures Pids(s + [x]) == Pids(s) + [PidOf(x)]
  {
  }

  lemma FitsReplace(pic: Picture, l: List, s: seq<Elem>)
    requires AllFit(pic) && l in pic.n && forall x :: x in s ==> x in pic.n[l] || Fits(pic, l, x)
    ensures AllFit(pic.(n := pic.n[l := s]))
  {
    var pic' := pic.(n := pic.n[l := s]);
    forall m, y | m in pic'.n && y in pic'.n[m] ensures Fits(pic', m, y) {
      assert y in pic.n[m] ==> Fits(pic, m, y);
    }
  }

  /** One list that holds no waits is replaced. */
  lemma ReplaceShows(pic: Picture, k: Kernel, l: List, s: seq<Elem>)
    requires Shows(pic, k) && l in pic.n && !l.site.QueueHead? && !l.site.BlobHead? && forall x :: x in s ==>
      x in pic.n[l] || Fits(pic, l, x)
    ensures var pic' := pic.(n := pic.n[l := s]); Heads(pic') && AllFit(pic') && TasksShow(pic', k.tasks)
  {
    hide TasksShow, AllFit, Heads;
    HeadsStay(pic, pic.n[l := s]);
    FitsReplace(pic, l, s);
    TasksIgnoreScheduling(pic, pic.n[l := s], k.tasks);
  }

  /** The list that `schedule_task` appends to. */
  function ListFor(pic: Picture, s: TaskState): List {
    match s
    case Running => pic.running
    case Exiting => pic.exiting
    case _ => pic.blocking
  }

  /** The link of `p` at the end of a scheduling list. */
  lemma ScheduleShows(pic: Picture, k: Kernel, p: Pid)
    requires Shows(pic, k) && p in k.tasks && k.tasks[p].state != Zombie
    ensures p in pic.tasks && pic.tasks[p].state == k.tasks[p].state
    ensures var l := ListFor(pic, pic.tasks[p].state);
      Shows(pic.(n := pic.n[l := pic.n[l] + [pic.tasks[p].list]]), Schedule(k, p))
  {
    hide TasksShow, AllFit, Heads, Pids;
    LinkFacts(pic, k, p);
    HeadsExist(pic, k);
    SitesOf(pic, k);
    var x, l := pic.tasks[p].list, ListFor(pic, pic.tasks[p].state);
    PidsAppend(pic.n[l], x);
    ReplaceShows(pic, k, l, pic.n[l] + [x]);
  }

  lemma PidsTail(s: seq<Elem>)
    requires s != []
    ensures Pids(s[1..]) == Pids(s)[1..] && PidOf(s[0]) == Pids(s)[0]
  {
  }

  /** The running list loses its first element. */
  lemma FetchRunningShows(pic: Picture, k: Kernel)
    requires Shows(pic, k) && pic.n[pic.running] != []
    ensures var x := pic.n[pic.running][0]; var p := PidOf(x);
      && k.running != [] && p == k.running[0] && p in k.tasks && p in pic.tasks && pic.tasks[p].list == x
      && Shows(pic.(n := pic.n[pic.running := pic.n[pic.running][1..]]), k.(running := k.running[1..]))
  {
    hide TasksShow, AllFit, Heads, Pids;
    HeadsExist(pic, k);
    SitesOf(pic, k);
    FirstFits(pic, k);
    PidsEmpty(pic.n[pic.running]);
    PidsTail(pic.n[pic.running]);
    ReplaceShows(pic, k, pic.running, pic.n[pic.running][1..]);
  }

  /** The exiting list loses its first element. */
  lemma FetchExitingShows(pic: Picture, k: Kernel)
    requires Shows(pic, k) && pic.n[pic.exiting] != []
    ensures k.exiting != [] &&
      Shows(pic.(n := pic.n[pic.exiting := pic.n[pic.exiting][1..]]), k.(exiting := k.exiting[1..]))
  {
    hide TasksShow, AllFit, Heads, Pids;
    HeadsExist(pic, k);
    SitesOf(pic, k);
    PidsEmpty(pic.n[pic.exiting]);
    PidsTail(pic.n[pic.exiting]);
    ReplaceShows(pic, k, pic.exiting, pic.n[pic.exiting][1..]);
  }

  // ---- the traversal of the blocking list ----

  function StateMove(s: TaskState): Move {
    match s
    case Running => ToFirst
    case Exiting => ToSecond
    case Zombie => Die
    case _ => Stay
  }

  /** What `process_blocking_list` does with an element, by the state of its task. */
  function MoveOf(tasks: map<Pid, Record>): Elem -> Move {
    (x: Elem) => if PidOf(x) !in tasks then Die else StateMove(tasks[PidOf(x)].state)
  }

  lemma {:induction false} FilterPids(s: seq<Elem>, q: seq<Pid>, f: Elem -> bool, g: Pid -> bool)
    requires q == Pids(s) && forall i :: 0 <= i < |s| ==> f(s[i]) == g(q[i])
    ensures Filter(q, g) == Pids(Filter(s, f))
    decreases |s|
  {
    if s != [] {
      var m := |s| - 1;
      assert q[..m] == Pids(s[..m]);
      FilterPids(s[..m], q[..m], f, g);
      if f(s[m]) { PidsAppend(Filter(s[..m], f), s[m]); }
    }
  }

  lemma {:induction false} FilterSubset(s: seq<Elem>, f: Elem -> bool)
    ensures forall x :: x in Filter(s, f) ==> x in s
  {
    forall x | x in Filter(s, f) ensures x in s { FilterMembers(s, f, x); }
  }

  lemma PidsConcat(s: seq<Elem>, t: seq<Elem>)
    ensures Pids(s + t) == Pids(s) + Pids(t)
  {
  }

  /** The three filters of the blocking list, as elements. */
  ghost function SweptNodes(pic: Picture): map<List, seq<Elem>>
    requires Heads(pic)
  {
    var s, move := pic.n[pic.blocking], MoveOf(pic.tasks);
    Changed(pic.n, pic.blocking, pic.running, pic.exiting,
      Filter(s, Bound(move, Stay)), pic.n[pic.running] + Filter(s, Bound(move, ToFirst)),
        pic.n[pic.exiting] + Filter(s, Bound(move, ToSecond)))
  }

  /** Elements and pids of one list, with a state for each. */
  ghost predicate Matches(s: seq<Elem>, q: seq<Pid>, rs: map<Pid, Record>, ts: map<Pid, Task>) {
    && q == Pids(s)
    && forall i :: 0 <= i < |q| ==> PidOf(s[i]) == q[i] && q[i] in ts && q[i] in rs && rs[q[i]].state == ts[q[i]].state
  }

  lemma BlockingMatches(pic: Picture, k: Kernel)
    requires Shows(pic, k)
    ensures Matches(pic.n[pic.blocking], k.blocking, pic.tasks, k.tasks)
  {
    var s, q := pic.n[pic.blocking], k.blocking;
    forall i | 0 <= i < |q| ensures PidOf(s[i]) == q[i] && q[i] in k.tasks && q[i] in pic.tasks &&
      pic.tasks[q[i]].state == k.tasks[q[i]].state {
      assert s[i] in s && Fits(pic, pic.blocking, s[i]);
      assert TaskShows(pic, q[i], k.tasks[q[i]]);
    }
  }

  lemma MatchesFilter(s: seq<Elem>, q: seq<Pid>, rs: map<Pid, Record>, ts: map<Pid, Task>, goal: Move,
                      states: set<TaskState>)
    requires Matches(s, q, rs, ts)
    requires forall p :: p in rs && p in ts && rs[p].state == ts[p].state ==>
      (ts[p].state in states <==> StateMove(rs[p].state) == goal)
    ensures Pids(Filter(s, Bound(MoveOf(rs), goal))) == Filter(q, InState(ts, states))
  {
    FilterPids(s, q, Bound(MoveOf(rs), goal), InState(ts, states));
  }

  lemma MatchesAll(s: seq<Elem>, q: seq<Pid>, rs: map<Pid, Record>, ts: map<Pid, Task>)
    requires Matches(s, q, rs, ts)
    ensures var move := MoveOf(rs);
      && Pids(Filter(s, Bound(move, Stay))) == Filter(q, InState(ts, {Interruptible, Uninterruptible}))
      && Pids(Filter(s, Bound(move, ToFirst))) == Filter(q, InState(ts, {Running}))
      && Pids(Filter(s, Bound(move, ToSecond))) == Filter(q, InState(ts, {Exiting}))
  {
    hide Matches, Filter, Pids;
    MatchesFilter(s, q, rs, ts, Stay, {Interruptible, Uninterruptible});
    MatchesFilter(s, q, rs, ts, ToFirst, {Running});
    MatchesFilter(s, q, rs, ts, ToSecond, {Exiting});
  }

  /** The traversal meets a zombie exactly if there is one. */
  lemma MatchesZombie(s: seq<Elem>, q: seq<Pid>, rs: map<Pid, Record>, ts: map<Pid, Task>)
    requires Matches(s, q, rs, ts)
    ensures (exists x :: x in s && MoveOf(rs)(x) == Die) <==> (exists p :: p in q && p in ts && ts[p].state == Zombie)
  {
    if x :| x in s && MoveOf(rs)(x) == Die {
      var i :| 0 <= i < |s| && s[i] == x;
      assert q[i] in q;
    }
    if p :| p in q && p in ts && ts[p].state == Zombie {
      var i :| 0 <= i < |q| && q[i] == p;
      assert s[i] in s;
    }
  }

  lemma SweepFits(pic: Picture)
    requires Heads(pic) && AllFit(pic)
    ensures AllFit(pic.(n := SweptNodes(pic)))
  {
    var s, move, n := pic.n[pic.blocking], MoveOf(pic.tasks), SweptNodes(pic);
    FilterSubset(s, Bound(move, Stay));
    FilterSubset(s, Bound(move, ToFirst));
    FilterSubset(s, Bound(move, ToSecond));
    hide Filter;
    forall m, y | m in n && y in n[m] ensures Fits(pic.(n := n), m, y) {
      assert y in pic.n[m] || y in s;
      assert y in pic.n[m] ==> Fits(pic, m, y);
      assert y in s ==> Fits(pic, pic.blocking, y);
    }
  }

  /** The traversal of the blocking list shows `process_blocking_list`. */
  lemma SweepShows(pic: Picture, k: Kernel)
    requires Shows(pic, k)
    ensures Shows(pic.(n := SweptNodes(pic)), ProcessBlocking(k))
  {
    hide TasksShow, TaskShows, AllFit, Filter, Pids, MoveOf, Bound, Matches;
    var s, move, n := pic.n[pic.blocking], MoveOf(pic.tasks), SweptNodes(pic);
    SweepFits(pic);
    BlockingMatches(pic, k);
    MatchesAll(s, k.blocking, pic.tasks, k.tasks);
    PidsConcat(pic.n[pic.running], Filter(s, Bound(move, ToFirst)));
    PidsConcat(pic.n[pic.exiting], Filter(s, Bound(move, ToSecond)));
    TasksIgnoreScheduling(pic, n, k.tasks);
  }

  // ---- task records ----

  /** The parts of a record that have nothing to do with lists. */
  predicate SameLinks(r: Record, q: Record) {
    r.list == q.list && r.node == q.node && r.queue == q.queue
  }

  lemma BlobsIgnoreRecords(pic: Picture, tasks: map<Pid, Record>, p: Pid, blobs: List)
    requires BlobsShow(pic, p, blobs) && pic.tasks.Keys <= tasks.Keys && forall q :: q in pic.tasks ==>
      SameLinks(tasks[q], pic.tasks[q])
    ensures BlobsShow(pic.(tasks := tasks), p, blobs)
  {
    forall b | b in pic.n[blobs] ensures BlobShows(pic.(tasks := tasks), p, b) {
      assert BlobShows(pic, p, b);
    }
  }

  lemma RecordAlone(pic: Picture, was: Task, p: Pid, r: Record, t: Task)
    requires TaskShows(pic, p, was) && SameLinks(r, pic.tasks[p])
    requires t.ppid == r.ppid && t.tgid == r.tgid && t.state == r.state && t.nonStop == r.nonStop &&
      t.exited == r.exited
    requires t.waiters == was.waiters && WaitShows(pic, p, r.wait, t.wait)
    ensures TaskShows(pic.(tasks := pic.tasks[p := r]), p, t)
  {
    hide BlobsShow;
    if r.wait.Some? { BlobsIgnoreRecords(pic, pic.tasks[p := r], p, r.wait.value.blobs); }
  }

  lemma TaskIgnoresRecords(pic: Picture, tasks: map<Pid, Record>, ts: map<Pid, Task>, q: Pid)
    requires TasksShow(pic, ts) && q in ts && pic.tasks.Keys <= tasks.Keys && tasks[q] == pic.tasks[q]
    requires forall p :: p in pic.tasks ==> SameLinks(tasks[p], pic.tasks[p])
    ensures TaskShows(pic.(tasks := tasks), q, ts[q])
  {
    assert TaskShows(pic, q, ts[q]);
    hide BlobsShow;
    if tasks[q].wait.Some? { BlobsIgnoreRecords(pic, tasks, q, tasks[q].wait.value.blobs); }
  }

  lemma RecordTasks(pic: Picture, ts: map<Pid, Task>, p: Pid, r: Record, t: Task)
    requires TasksShow(pic, ts) && p in ts && SameLinks(r, pic.tasks[p])
    requires t.ppid == r.ppid && t.tgid == r.tgid && t.state == r.state && t.nonStop == r.nonStop &&
      t.exited == r.exited
    requires t.waiters == ts[p].waiters && WaitShows(pic, p, r.wait, t.wait)
    ensures TasksShow(pic.(tasks := pic.tasks[p := r]), ts[p := t])
  {
    hide TaskShows;
    var tasks := pic.tasks[p := r];
    RecordAlone(pic, ts[p], p, r, t);
    forall q | q in ts && q != p ensures TaskShows(pic.(tasks := tasks), q, ts[q]) {
      TaskIgnoresRecords(pic, tasks, ts, q);
    }
  }

  /** One record changes, but none of its links. */
  lemma RecordShows(pic: Picture, k: Kernel, p: Pid, r: Record, t: Task)
    requires Shows(pic, k) && p in k.tasks && SameLinks(r, pic.tasks[p])
    requires t.ppid == r.ppid && t.tgid == r.tgid && t.state == r.state && t.nonStop == r.nonStop &&
      t.exited == r.exited
    requires t.waiters == k.tasks[p].waiters && WaitShows(pic, p, r.wait, t.wait)
    ensures Shows(pic.(tasks := pic.tasks[p := r]), k.(tasks := k.tasks[p := t]))
  {
    hide TaskShows, WaitShows;
    RecordTasks(pic, k.tasks, p, r, t);
    var pic' := pic.(tasks := pic.tasks[p := r]);
    forall l, x | l in pic'.n && x in pic'.n[l] ensures Fits(pic', l, x) {
      assert Fits(pic, l, x);
    }
  }

  // ---- things on the side: new lists and elements, and the blobs of a wait4 in progress ----

  /** Only lists that no record refers to differ: the blob list of `me`, who is in no pending wait, and new lists. */
  ghost predicate Aside(pic: Picture, me: int, pic': Picture) {
    && pic' == pic.(n := pic'.n, entries := pic'.entries, elems := pic'.elems)
    && pic.n.Keys <= pic'.n.Keys && pic.elems <= pic'.elems
    && (me in pic.tasks ==> pic.tasks[me].wait.None?)
    && (forall l :: l in pic.n && l.site != BlobHead(me) ==> pic'.n[l] == pic.n[l])
    && (forall l :: l in pic'.n && l !in pic.n ==> l.site.QueueHead? || l.site.BlobHead?)
    && (forall l, x :: l in pic'.n && (l !in pic.n || l.site == BlobHead(me)) && x in pic'.n[l] ==> Fits(pic, l, x))
    && (forall l, b :: l in pic.n && l.site != BlobHead(me) && b in pic.n[l] && b in pic.entries ==>
          b in pic'.entries && pic'.entries[b] == pic.entries[b])
  }

  lemma AsideBlobs(pic: Picture, me: int, pic': Picture, p: Pid, blobs: List)
    requires BlobsShow(pic, p, blobs) && Aside(pic, me, pic') && QueuesSited(pic) && p != me
    ensures BlobsShow(pic', p, blobs) && pic'.n[blobs] == pic.n[blobs]
  {
    forall b | b in pic'.n[blobs] ensures BlobShows(pic', p, b) {
      assert BlobShows(pic, p, b);
    }
  }

  lemma AsideTask(pic: Picture, me: int, pic': Picture, p: Pid, t: Task)
    requires TaskShows(pic, p, t) && Aside(pic, me, pic') && QueuesSited(pic)
    ensures TaskShows(pic', p, t)
  {
    hide BlobsShow;
    if pic.tasks[p].wait.Some? { AsideBlobs(pic, me, pic', p, pic.tasks[p].wait.value.blobs); }
  }

  lemma AsideTasks(pic: Picture, ts: map<Pid, Task>, me: int, pic': Picture)
    requires TasksShow(pic, ts) && Aside(pic, me, pic') && QueuesSited(pic)
    ensures TasksShow(pic', ts)
  {
    assert pic'.tasks == pic.tasks;
    hide TaskShows, Aside, QueuesSited;
    forall p | p in ts ensures TaskShows(pic', p, ts[p]) {
      AsideTask(pic, me, pic', p, ts[p]);
    }
  }

  lemma AsideHeads(pic: Picture, k: Kernel, me: int, pic': Picture)
    requires Heads(pic) && ListsShow(pic, k) && Aside(pic, me, pic')
    ensures Heads(pic') && ListsShow(pic', k)
  {
  }

  lemma AsideShows(pic: Picture, k: Kernel, me: int, pic': Picture)
    requires Shows(pic, k) && Aside(pic, me, pic')
    ensures Shows(pic', k)
  {
    hide TasksShow, TaskShows, Pids, Heads, QueuesSited;
    QueuesAreSited(pic, k.tasks);
    AsideTasks(pic, k.tasks, me, pic');
    AsideHeads(pic, k, me, pic');
    forall l, x | l in pic'.n && x in pic'.n[l] ensures Fits(pic', l, x) {
      assert l in pic.n && x in pic.n[l] ==> Fits(pic, l, x);
    }
  }

  // ---- wait queues ----

  /** No pending wait loses an entry when the wait queue of `c` becomes `s`. */
  ghost predicate NoneLost(pic: Picture, c: Pid, s: seq<Elem>)
    requires c in pic.tasks && pic.tasks[c].queue in pic.n
  {
    forall p, x | p in pic.tasks && pic.tasks[p].wait.Some? && x in pic.n[pic.tasks[c].queue] ::
      x.site == EntryOf(p, c) ==> x in s
  }

  lemma BlobsSite(pic: Picture, p: Pid, blobs: List)
    requires BlobsShow(pic, p, blobs)
    ensures blobs in pic.n && blobs.site == BlobHead(p)
  {
  }

  lemma BlobsSurvive(pic: Picture, c: Pid, s: seq<Elem>, p: Pid, blobs: List)
    requires BlobsShow(pic, p, blobs) && c in pic.tasks && pic.tasks[c].queue in pic.n &&
      pic.tasks[c].queue.site == QueueHead(c)
    requires p in pic.tasks && pic.tasks[p].wait.Some? && NoneLost(pic, c, s) && QueuesSited(pic)
    ensures BlobsShow(pic.(n := pic.n[pic.tasks[c].queue := s]), p, blobs)
  {
    var pic' := pic.(n := pic.n[pic.tasks[c].queue := s]);
    assert blobs != pic.tasks[c].queue;
    forall b | b in pic.n[blobs] ensures BlobShows(pic', p, b) {
      assert BlobShows(pic, p, b);
    }
  }

  lemma QueueTask(pic: Picture, c: Pid, s: seq<Elem>, waiters: seq<Pid>, p: Pid, t: Task)
    requires waiters == Pids(s) && TaskShows(pic, p, t) && c in pic.tasks && pic.tasks[c].queue in pic.n &&
      QueuesSited(pic) && NoneLost(pic, c, s)
    ensures TaskShows(pic.(n := pic.n[pic.tasks[c].queue := s]), p, if p == c then t.(waiters := waiters) else t)
  {
    var r := pic.tasks[p];
    hide BlobsShow, Pids;
    if r.wait.Some? {
      BlobsSite(pic, p, r.wait.value.blobs);
      BlobsSurvive(pic, c, s, p, r.wait.value.blobs);
    }
  }

  lemma QueueTasks(pic: Picture, ts: map<Pid, Task>, c: Pid, s: seq<Elem>, waiters: seq<Pid>)
    requires TasksShow(pic, ts) && c in ts && waiters == Pids(s) && c in pic.tasks && pic.tasks[c].queue in pic.n &&
      NoneLost(pic, c, s)
    ensures TasksShow(pic.(n := pic.n[pic.tasks[c].queue := s]), ts[c := ts[c].(waiters := waiters)])
  {
    hide TaskShows, NoneLost, QueuesSited, Pids;
    QueuesAreSited(pic, ts);
    var pic', ts' := pic.(n := pic.n[pic.tasks[c].queue := s]), ts[c := ts[c].(waiters := waiters)];
    forall p | p in ts' ensures TaskShows(pic', p, ts'[p]) {
      QueueTask(pic, c, s, waiters, p, ts[p]);
    }
  }

  /** The wait queue of `c` changes, and no pending wait loses an entry. */
  lemma QueueShows(pic: Picture, k: Kernel, c: Pid, s: seq<Elem>, waiters: seq<Pid>)
    requires Shows(pic, k) && c in k.tasks && waiters == Pids(s)
    requires forall x :: x in s ==> x.site.EntryOf? && x.site.child == c
    requires c in pic.tasks && pic.tasks[c].queue in pic.n && NoneLost(pic, c, s)
    ensures Shows(pic.(n := pic.n[pic.tasks[c].queue := s]), k.(tasks := k.tasks[c := k.tasks[c].(waiters := waiters)]))
  {
    hide TasksShow, AllFit, Heads, Pids, NoneLost;
    QueueKept(pic, k.tasks, c);
    QueueTasks(pic, k.tasks, c, s, waiters);
    var q := pic.tasks[c].queue;
    HeadsStay(pic, pic.n[q := s]);
    FitsReplace(pic, q, s);
    HeadsExist(pic, k);
    SitesOf(pic, k);
  }

  // ---- registration ----

  lemma NewTaskAlone(pic: Picture, p: Pid, r: Record, t: Task)
    requires p in pic.tasks && pic.tasks[p] == r
    requires t.ppid == r.ppid && t.tgid == r.tgid && t.state == r.state && t.nonStop == r.nonStop &&
      t.exited == r.exited
    requires r.list.site == HartOf(p) && r.list in pic.elems && r.node.site == VmOf(p) && r.node in pic.elems
    requires r.queue in pic.n && r.queue.site == QueueHead(p) && pic.n[r.queue] == [] && t.waiters == []
    requires r.wait.None? && t.wait.None?
    ensures TaskShows(pic, p, t)
  {
  }

  lemma NewTaskTasks(pic: Picture, ts: map<Pid, Task>, p: Pid, r: Record, t: Task)
    requires TasksShow(pic, ts) && p !in ts
    requires t.ppid == r.ppid && t.tgid == r.tgid && t.state == r.state && t.nonStop == r.nonStop &&
      t.exited == r.exited
    requires r.list.site == HartOf(p) && r.list in pic.elems && r.node.site == VmOf(p) && r.node in pic.elems
    requires r.queue in pic.n && r.queue.site == QueueHead(p) && pic.n[r.queue] == [] && t.waiters == []
    requires r.wait.None? && t.wait.None?
    ensures TasksShow(pic.(tasks := pic.tasks[p := r]), ts[p := t])
  {
    hide TaskShows;
    var tasks := pic.tasks[p := r];
    NewTaskAlone(pic.(tasks := tasks), p, r, t);
    forall q | q in ts ensures TaskShows(pic.(tasks := tasks), q, ts[q]) {
      TaskIgnoresRecords(pic, tasks, ts, q);
    }
  }

  /** A new task, with an empty wait queue and links in no list. */
  lemma NewTaskShows(pic: Picture, k: Kernel, p: Pid, r: Record, t: Task)
    requires Shows(pic, k) && p !in k.tasks
    requires t.ppid == r.ppid && t.tgid == r.tgid && t.state == r.state && t.nonStop == r.nonStop &&
      t.exited == r.exited
    requires r.list.site == HartOf(p) && r.list in pic.elems && r.node.site == VmOf(p) && r.node in pic.elems
    requires r.queue in pic.n && r.queue.site == QueueHead(p) && pic.n[r.queue] == [] && t.waiters == []
    requires r.wait.None? && t.wait.None?
    ensures Shows(pic.(tasks := pic.tasks[p := r]), k.(tasks := k.tasks[p := t]))
  {
    hide TaskShows;
    NewTaskTasks(pic, k.tasks, p, r, t);
    var pic' := pic.(tasks := pic.tasks[p := r]);
    forall l, x | l in pic'.n && x in pic'.n[l] ensures Fits(pic', l, x) {
      assert Fits(pic, l, x);
    }
  }

  /** The registration of `p` at the end of the global task list. */
  lemma RegisterShows(pic: Picture, k: Kernel, p: Pid)
    requires Shows(pic, k) && p in k.tasks
    ensures p in pic.tasks
    ensures Shows(pic.(n := pic.n[pic.global := pic.n[pic.global] + [pic.tasks[p].node]]),
      k.(registered := k.registered + [p]))
  {
    hide TasksShow, AllFit, Heads, Pids;
    LinkFacts(pic, k, p);
    HeadsExist(pic, k);
    SitesOf(pic, k);
    var x, l := pic.tasks[p].node, pic.global;
    PidsAppend(pic.n[l], x);
    ReplaceShows(pic, k, l, pic.n[l] + [x]);
  }

  lemma {:induction false} FilterKeepsAll(q: seq<Pid>, f: Pid -> bool)
    requires forall p :: p in q ==> f(p)
    ensures Filter(q, f) == q
  {
    if q != [] {
      FilterKeepsAll(q[..|q| - 1], f);
      assert q == q[..|q| - 1] + [q[|q| - 1]];
    }
  }

  /** Without one of its members, a sequence of distinct pids is what is left of it. */
  lemma {:induction false} FilterOtherIsWithout(q: seq<Pid>, j: nat)
    requires Distinct(q) && j < |q|
    ensures Filter(q, Other(q[j])) == Without(q, j)
    decreases |q|
  {
    var m := |q| - 1;
    var front := q[..m];
    if j == m {
      FilterKeepsAll(front, Other(q[j]));
      assert Without(q, j) == front;
    } else {
      FilterOtherIsWithout(front, j);
      assert Without(q, j) == Without(front, j) + [q[m]];
      assert q[m] != q[j];
    }
  }

  lemma PidsWithout(s: seq<Elem>, j: nat)
    requires j < |s|
    ensures Pids(Without(s, j)) == Without(Pids(s), j)
  {
  }

  lemma WithoutHasTheRest(s: seq<Elem>, j: nat)
    requires j < |s|
    ensures forall x :: x in Without(s, j) ==> x in s
    ensures forall x :: x in s && x !in Without(s, j) ==> x == s[j]
  {
    var t := Without(s, j);
    forall i | 0 <= i < |s| && i != j ensures s[i] in t {
      assert s[i] == t[if i < j then i else i - 1];
    }
  }

  /** A registration leaves the global task list. */
  lemma UnregisterShows(pic: Picture, k: Kernel, j: nat)
    requires Shows(pic, k) && Distinct(k.registered) && j < |pic.n[pic.global]|
    ensures var l, p := pic.global, PidOf(pic.n[pic.global][j]);
      Shows(pic.(n := pic.n[l := Without(pic.n[l], j)]), k.(registered := Filter(k.registered, Other(p))))
  {
    hide TasksShow, AllFit, Heads, Pids, Filter;
    HeadsExist(pic, k);
    SitesOf(pic, k);
    var l := pic.global;
    PidsAt(pic.n[l]);
    FilterOtherIsWithout(k.registered, j);
    PidsWithout(pic.n[l], j);
    WithoutHasTheRest(pic.n[l], j);
    ReplaceShows(pic, k, l, Without(pic.n[l], j));
  }

  // ---- the blobs of a wait4 in progress ----

  /** `me` is in no pending wait, and `blobs` is a blob list of its own. */
  ghost predicate InProgress(pic: Picture, me: Pid, blobs: List) {
    me in pic.tasks && pic.tasks[me].wait.None? && blobs in pic.n && blobs.site == BlobHead(me)
  }

  lemma FitsOf(pic: Picture, k: Kernel, blobs: List)
    requires Shows(pic, k)
    ensures forall l, x :: l in pic.n && l.site == blobs.site && x in pic.n[l] ==> Fits(pic, l, x)
  {
  }

  /** A new blob at the end of the list, with its entry in no queue yet. */
  lemma AppendBlobShows(pic: Picture, k: Kernel, me: Pid, blobs: List, b: Elem, e: Elem)
    requires Shows(pic, k) && InProgress(pic, me, blobs) && b.site.BlobOf? && b.site.waiter == me && Outside(pic.n, b)
    ensures Shows(pic.(n := pic.n[blobs := pic.n[blobs] + [b]], entries := pic.entries[b := e]), k)
  {
    hide TasksShow, ListsShow, Heads;
    var pic' := pic.(n := pic.n[blobs := pic.n[blobs] + [b]], entries := pic.entries[b := e]);
    FitsOf(pic, k, blobs);
    assert forall l :: l in pic.n ==> b !in pic.n[l];
    hide Shows, Outside;
    AsideShows(pic, k, me, pic');
  }

  /** The list loses its first blob. */
  lemma FetchBlobShows(pic: Picture, k: Kernel, me: Pid, blobs: List)
    requires Shows(pic, k) && InProgress(pic, me, blobs) && pic.n[blobs] != []
    ensures Shows(pic.(n := pic.n[blobs := pic.n[blobs][1..]]), k)
  {
    hide TasksShow, ListsShow, Heads;
    var pic' := pic.(n := pic.n[blobs := pic.n[blobs][1..]]);
    FitsOf(pic, k, blobs);
    hide Shows, AllFit;
    assert Aside(pic, me, pic');
    AsideShows(pic, k, me, pic');
  }

  lemma QueueFits(pic: Picture, k: Kernel, c: Pid)
    requires Shows(pic, k) && c in k.tasks
    ensures c in pic.tasks && pic.tasks[c].queue in pic.n && k.tasks[c].waiters == Pids(pic.n[pic.tasks[c].queue])
    ensures forall x :: x in pic.n[pic.tasks[c].queue] ==> x.site.EntryOf? && x.site.child == c
    ensures pic.tasks[c].queue.site == QueueHead(c)
  {
    assert TaskShows(pic, c, k.tasks[c]);
    assert forall x :: x in pic.n[pic.tasks[c].queue] ==> Fits(pic, pic.tasks[c].queue, x);
  }

  /** A new entry at the end of the wait queue of `c`. */
  lemma EnterQueueShows(pic: Picture, k: Kernel, c: Pid, e: Elem, me: Pid)
    requires Shows(pic, k) && c in k.tasks && e.site == EntryOf(me, c)
    ensures c in pic.tasks && pic.tasks[c].queue in pic.n
    ensures Shows(pic.(n := pic.n[pic.tasks[c].queue := pic.n[pic.tasks[c].queue] + [e]]),
                  k.(tasks := k.tasks[c := k.tasks[c].(waiters := k.tasks[c].waiters + [me])]))
  {
    hide Shows, Pids;
    QueueFits(pic, k, c);
    var q := pic.tasks[c].queue;
    PidsAppend(pic.n[q], e);
    QueueShows(pic, k, c, pic.n[q] + [e], k.tasks[c].waiters + [me]);
  }

  /** The entry at index `j` leaves the wait queue of `c`; its owner is in no pending wait. */
  lemma LeaveQueueShows(pic: Picture, k: Kernel, c: Pid, j: nat, me: Pid)
    requires Shows(pic, k) && c in k.tasks && Distinct(k.tasks[c].waiters) && me in pic.tasks &&
      pic.tasks[me].wait.None?
    requires c in pic.tasks && pic.tasks[c].queue in pic.n && j < |pic.n[pic.tasks[c].queue]| &&
      PidOf(pic.n[pic.tasks[c].queue][j]) == me
    ensures Shows(pic.(n := pic.n[pic.tasks[c].queue := Without(pic.n[pic.tasks[c].queue], j)]),
                  k.(tasks := k.tasks[c := k.tasks[c].(waiters := Filter(k.tasks[c].waiters, Other(me)))]))
  {
    QueueFits(pic, k, c);
    var s := pic.n[pic.tasks[c].queue];
    PidsWithout(s, j);
    assert k.tasks[c].waiters[j] == me;
    FilterOtherIsWithout(k.tasks[c].waiters, j);
    WithoutHasTheRest(s, j);
    hide Shows, Pids, Without, Filter, Distinct;
    QueueShows(pic, k, c, Without(s, j), Filter(k.tasks[c].waiters, Other(me)));
  }

  /** The blobs so far still show after one more blob and its entry have been added. */
  lemma BlobsShowMore(pic: Picture, me: Pid, blobs: List, b: Elem, e: Elem, c: Pid, elems: set<Elem>)
    requires BlobsShow(pic, me, blobs) && Outside(pic.n, b) && b.site == BlobOf(me, c) && e.site == EntryOf(me, c)
    requires c in pic.tasks && pic.tasks[c].queue in pic.n && pic.tasks[c].queue != blobs && e in elems &&
      pic.elems <= elems
    requires forall d :: d in pic.tasks ==> pic.tasks[d].queue.site == QueueHead(d)
    ensures var q := pic.tasks[c].queue;
      BlobsShow(pic.(n := pic.n[blobs := pic.n[blobs] + [b]][q := pic.n[q] + [e]], entries := pic.entries[b := e],
        elems := elems), me, blobs)
  {
    var q := pic.tasks[c].queue;
    var pic' := pic.(n := pic.n[blobs := pic.n[blobs] + [b]][q := pic.n[q] + [e]], entries := pic.entries[b := e],
      elems := elems);
    forall x | x in pic'.n[blobs] ensures BlobShows(pic', me, x) {
      if x != b {
        assert x in pic.n[blobs] && BlobShows(pic, me, x);
      }
    }
  }

  /** The blobs that are left still show after the first one and its entry are gone. */
  lemma BlobsShowRest(pic: Picture, me: Pid, blobs: List, c: Pid, j: nat)
    requires BlobsShow(pic, me, blobs) && pic.n[blobs] != [] && Distinct(Pids(pic.n[blobs])) &&
      PidOf(pic.n[blobs][0]) == c
    requires c in pic.tasks && pic.tasks[c].queue in pic.n && pic.tasks[c].queue.site == QueueHead(c)
    requires j < |pic.n[pic.tasks[c].queue]| && forall d :: d in pic.tasks ==> pic.tasks[d].queue.site == QueueHead(d)
    ensures var q := pic.tasks[c].queue;
      BlobsShow(pic.(n := pic.n[blobs := pic.n[blobs][1..]][q := Without(pic.n[q], j)]), me, blobs)
  {
    var q, s := pic.tasks[c].queue, pic.n[blobs];
    var pic' := pic.(n := pic.n[blobs := s[1..]][q := Without(pic.n[q], j)]);
    forall x | x in s[1..] ensures BlobShows(pic', me, x) {
      assert BlobShows(pic, me, x);
      var i :| 1 <= i < |s| && s[i] == x;
      assert Pids(s)[i] != Pids(s)[0];
    }
  }
}
