/**
  The two loops of `call_wait4` as functions on tasks: entering the wait queues while the global task list is scanned,
    and
  leaving them after the wait.
 */
module WaitScan {
  import opened Collections
  import opened Scheduler

  lemma {:induction false} LivePrefixStops(tasks: map<Pid, Task>, live: seq<Pid>, rest: seq<Pid>)
    requires forall p :: p in live ==> p in tasks && !tasks[p].exited
    requires rest != [] ==> rest[0] in tasks && tasks[rest[0]].exited
    ensures LivePrefix(tasks, live + rest) == live
    decreases |live|
  {
    if live != [] {
      assert (live + rest)[1..] == live[1..] + rest;
      LivePrefixStops(tasks, live[1..], rest);
    } else {
      assert live + rest == rest;
    }
  }

  /** The tasks after `me` has entered the wait queue of each of `blobs`. */
  function Entered(tasks: map<Pid, Task>, me: Pid, blobs: seq<Pid>): map<Pid, Task> {
    map p | p in tasks :: if p in blobs then tasks[p].(waiters := tasks[p].waiters + [me]) else tasks[p]
  }

  lemma WantedIsKept(tasks: map<Pid, Task>, me: Pid, blobs: seq<Pid>, hint: int, p: Pid)
    requires p in tasks
    ensures Wanted(Entered(tasks, me, blobs), me, hint, p) <==> Wanted(tasks, me, hint, p)
    ensures Entered(tasks, me, blobs)[p].exited == tasks[p].exited
  {
  }

  lemma EnterOne(tasks: map<Pid, Task>, me: Pid, blobs: seq<Pid>, p: Pid)
    requires p in tasks && p !in blobs
    ensures var t := Entered(tasks, me, blobs);
      Entered(tasks, me, blobs + [p]) == t[p := t[p].(waiters := t[p].waiters + [me])]
  {
  }

  /** After the first `i` registered tasks: none that matched has exited. */
  ghost predicate Scanned(k: Kernel, me: Pid, hint: int, nohang: bool, i: nat, ret: int, blobs: seq<Pid>) {
    && i <= |k.registered|
    && var c := Filter(k.registered[..i], WantedBy(k.tasks, me, hint));
       && (forall p :: p in c ==> p in k.tasks && !k.tasks[p].exited)
       && ret == (if c == [] then -1 else 0) && blobs == (if nohang then [] else c)
  }

  lemma ScanNothing(k: Kernel, me: Pid, hint: int, nohang: bool)
    ensures Scanned(k, me, hint, nohang, 0, -1, [])
  {
  }

  lemma ScanEverything(k: Kernel, me: Pid, hint: int, nohang: bool, ret: int, blobs: seq<Pid>)
    requires Scanned(k, me, hint, nohang, |k.registered|, ret, blobs)
    ensures Scan(ret, blobs) == ScanChildren(k, me, hint, nohang)
  {
    var c := Filter(k.registered, WantedBy(k.tasks, me, hint));
    assert k.registered[..|k.registered|] == k.registered;
    assert c + [] == c;
    LivePrefixStops(k.tasks, c, []);
  }

  lemma ScanStep(k: Kernel, me: Pid, hint: int, nohang: bool, i: nat, ret: int, blobs: seq<Pid>)
    requires Scanned(k, me, hint, nohang, i, ret, blobs) && i < |k.registered| && k.registered[i] in k.tasks &&
      Distinct(k.registered)
    ensures var p := k.registered[i];
      && p !in blobs
      && (if !Wanted(k.tasks, me, hint, p) then Scanned(k, me, hint, nohang, i + 1, ret, blobs)
          else if k.tasks[p].exited then Scan(p, blobs) == ScanChildren(k, me, hint, nohang)
          else Scanned(k, me, hint, nohang, i + 1, 0, if nohang then blobs else blobs + [p]))
  {
    var p, f := k.registered[i], WantedBy(k.tasks, me, hint);
    FilterPrefix(k.registered, f, i);
    FilterMembers(k.registered[..i], f, p);
    if f(p) && k.tasks[p].exited {
      FilterSplitsAt(k.registered, f, i);
      LivePrefixStops(k.tasks, Filter(k.registered[..i], f), [p] + Filter(k.registered[i + 1..], f));
    }
    hide Filter;
  }

  lemma EnterNothing(tasks: map<Pid, Task>, me: Pid)
    ensures Entered(tasks, me, []) == tasks
  {
  }

  lemma SleepIsEnter(k: Kernel, w: Wait)
    requires CanAct(k)
    ensures var me, t := k.current.value, Entered(k.tasks, k.current.value, w.blobs);
      me in t && t[me].state == k.tasks[me].state &&
      Sleep(k, w) == k.(tasks := t[me := t[me].(state := Interruptible, wait := Some(w))])
  {
  }

  /** The tasks after `me` has left the wait queue of each of `blobs`. */
  function Left(tasks: map<Pid, Task>, me: Pid, blobs: seq<Pid>): map<Pid, Task> {
    map p | p in tasks :: if p in blobs then tasks[p].(waiters := Filter(tasks[p].waiters, Other(me))) else tasks[p]
  }

  lemma LeaveNothing(tasks: map<Pid, Task>, me: Pid)
    ensures Left(tasks, me, []) == tasks
  {
  }

  lemma LeaveOne(tasks: map<Pid, Task>, me: Pid, done: seq<Pid>, b: Pid)
    requires b in tasks
    ensures var t := Left(tasks, me, done);
      && b in t && t[b].exited == tasks[b].exited
      && Left(tasks, me, done + [b]) == t[b := t[b].(waiters := Filter(t[b].waiters, Other(me)))]
  {
    FilterTwice(tasks[b].waiters, Other(me));
  }

  lemma RegisteredIsSound(k: Kernel)
    requires Inv(k)
    ensures Distinct(k.registered) && forall p :: p in k.registered ==> p in k.tasks
  {
  }

  lemma WaitIsLinked(k: Kernel)
    requires Inv(k) && CanResume(k)
    ensures var w := k.tasks[k.current.value].wait.value; w.ret >= 0 && forall b :: b in w.blobs ==> b in k.tasks
  {
    CurrentIsSound(k);
  }
}
