/**
  The kernel of `TaskSystem` lives the runs of `SchedulerRuns`: whatever its tasks do, every step is a step of a run and
  no assertion of the kernel or of its lists ever fails.
 */
module KernelRuns {
  import opened Collections
  import opened IntrusiveList
  import opened Scheduler
  import opened SchedulerRuns
  import opened TaskSystem

  lemma WaitersExist(k: Kernel)
    requires Linked(k)
    ensures CanAct(k) ==> forall w :: w in k.tasks[k.current.value].waiters ==> w in k.tasks
  {
  }

  /** What a task does next, with the structures there are afterwards. */
  method Perform(s: System, e: Event) returns (died: bool)
    requires s.Valid() && Inv(s.k) && Offered(s.k, e)
    modifies s, s.lists, s.elems
    ensures !died && s.Valid() && Inv(s.k) && Next(old(s.k), e, s.k)
    ensures fresh(s.lists - old(s.lists)) && fresh(s.elems - old(s.elems))
  {
    hide System.Valid, Inv, Trap, Trapping, Exit, Clone, Wait4, Resume, Sleeps;
    InvIsLinked(s.k);
    WaitersExist(s.k);
    match e {
      case DoClone(thread) =>
        var pid;
        pid, died := s.CloneTask(thread);
      case DoExit => died := s.DoExit();
      case DoWait(hint, nohang) =>
        var ret, slept;
        ret, slept, died := s.CallWait4(hint, nohang);
      case DoResume =>
        var ret;
        ret, died := s.ResumeWait4();
      case DoYield =>
        YieldKeepsInv(s.k);
        died := s.TrapHandler();
    }
  }

  lemma CurrentHasRecord(s: System)
    requires s.Valid() && Inv(s.k) && s.k.current.Some?
    ensures s.k.current.value in s.k.tasks && s.k.current.value in s.tasks
    ensures s.tasks[s.k.current.value].wait.Some? <==> s.k.tasks[s.k.current.value].wait.Some?
  {
    CurrentIsElsewhere(s.k);
    hide Inv;
    s.RecordFacts(s.k.current.value);
  }

  /** Whether the holder of the processor can do `e`. */
  method Offers(s: System, e: Event) returns (yes: bool)
    requires s.Valid() && Inv(s.k)
    ensures yes <==> Offered(s.k, e)
  {
    hide Inv, Pool;
    s.CurrentIsCurrent();
    if s.current.None? { return e.DoYield?; }
    CurrentHasRecord(s);
    var waiting := s.tasks[s.current.value].wait.Some?;
    yes := if e.DoResume? then waiting else !waiting;
  }

  lemma RunGoesOn(ks: seq<Kernel>, es: seq<Event>, e: Event, k: Kernel)
    requires IsRun(ks, es) && Next(ks[|ks| - 1], e, k)
    ensures IsRun(ks + [k], es + [e])
  {
    hide Next;
    var ks', es' := ks + [k], es + [e];
    forall i | 0 <= i < |es'| ensures Next(ks'[i], es'[i], ks'[i + 1]) {
      if i < |es| { assert Next(ks[i], es[i], ks[i + 1]); }
    }
  }

  /** From boot on, through any events that the tasks offer: the states passed are a run. */
  method Live(wishes: seq<Event>) returns (s: System, died: bool, ghost ks: seq<Kernel>, ghost es: seq<Event>)
    ensures !died && s.Valid() && IsRun(ks, es) && ks[|ks| - 1] == s.k
  {
    hide System.Valid, Inv, Next, Offered;
    s := new System();
    died := s.Start();
    ks, es := [s.k], [];
    for i := 0 to |wishes|
      invariant !died && s.Valid() && Inv(s.k) && IsRun(ks, es) && ks[|ks| - 1] == s.k
      invariant fresh(s) && fresh(s.lists) && fresh(s.elems)
    {
      var yes := Offers(s, wishes[i]);
      if yes {
        died := Perform(s, wishes[i]);
        RunGoesOn(ks, es, wishes[i], s.k);
        ks, es := ks + [s.k], es + [wishes[i]];
      }
    }
  }
}
