/** Left alone, with writes that succeed, the worker drains the queue. */
module PersistProgress {
  import opened Basics
  import opened PersistQueue
  import opened PersistSystem

  /** Events of a run in which nothing new arrives and nothing goes wrong. */
  predicate Quiet(e: Event) {
    e.Acquire? || e.Take? || e == Write(true) || e.Finish? || e.DropGuard?
  }

  ghost predicate AllQuiet(es: seq<Event>) {
    forall k :: 0 <= k < |es| ==> Quiet(es[k])
  }

  predicate WritesNow(s: System, e: Event) {
    e.Write? && !s.lock.Free? && s.lock.job.InFlight?
  }

  function Writes(s: System, es: seq<Event>): nat
    decreases |es|
  {
    if es == [] then 0
    else
      var last := |es| - 1;
      Writes(s, es[..last]) + if WritesNow(Run(s, es[..last]), es[last]) then 1 else 0
  }

  /** Writes that are still to come. */
  function Owed(s: System): nat {
    (if s.queue.pending.Some? then 1 else 0) + (if !s.lock.Free? && s.lock.job.InFlight? then 1 else 0)
  }

  /** Steps that are still to come before the worker has exited. */
  function Rank(s: System): nat {
    if !s.queue.workerRunning then 0
    else
      (if s.queue.pending.Some? then 4 else 0) +
      match s.lock
      case Free => 2
      case _ => match s.lock.job
        case Untaken => 1
        case InFlight(_) => 4
        case Written(_, _) => 3
  }

  /** The live worker is one that has not panicked. */
  ghost predicate Live(s: System) {
    s.queue.workerRunning && forall i :: 0 <= i < |s.workers| ==> !s.workers[i].stage.Unwinding?
  }

  /** The accepted selection waits, is being written, or is in the row. */
  ghost predicate Draining(s: System, desired: Id) {
    && s.queue.latestDesired == Some(desired)
    && (forall i :: 0 <= i < |s.workers| ==> !s.workers[i].stage.Unwinding?)
    && (s.queue.pending.Some?
        || (s.lock.ByWorker? && s.lock.job.InFlight? && s.lock.job.request.workspaceId == desired)
        || (s.lock.ByWorker? && s.lock.job.Written? && s.lock.job.ok && s.row == Some(desired))
        || ((s.lock.Free? || (s.lock.ByWorker? && s.lock.job.Untaken?)) && s.row == Some(desired)))
  }

  lemma DrainingStep(s: System, e: Event, desired: Id)
    requires WorkersOk(s) && SelectionOk(s) && Draining(s, desired) && Quiet(e)
    ensures var t := Next(s, e);
            && Draining(t, desired)
            && Owed(t) + (if WritesNow(s, e) then 1 else 0) <= Owed(s)
            && Rank(t) <= Rank(s)
            && (s.queue.workerRunning && t.lock != s.lock ==> Rank(t) < Rank(s))
            && (s.queue.workerRunning && !t.queue.workerRunning ==>
                t.queue.pending.None? && t.row == Some(desired) && t.lock.Free?)
            && (!s.queue.workerRunning && s.queue.pending.None? ==> !t.queue.workerRunning && t.queue.pending.None?)
  {
  }

  /** Either the worker has exited with the row written, or it still runs. */
  ghost predicate DrainedOrRunning(s: System, desired: Id) {
    Draining(s, desired) && (!s.queue.workerRunning ==> s.queue.pending.None? && s.row == Some(desired) && s.lock.Free?)
  }

  lemma DrainedStep(s: System, e: Event, desired: Id)
    requires WorkersOk(s) && SelectionOk(s) && DrainedOrRunning(s, desired) && Quiet(e)
    ensures DrainedOrRunning(Next(s, e), desired)
  {
    DrainingStep(s, e, desired);
    if !s.queue.workerRunning {
      forall i | 0 <= i < |s.workers| ensures !s.workers[i].armed && !s.workers[i].stage.Looping? {}
    }
  }

  lemma {:induction false} DrainingRun(s: System, es: seq<Event>, row: Option<Id>, desired: Id)
    requires Inv(s, row) && DrainedOrRunning(s, desired) && AllQuiet(es)
    ensures var t := Run(s, es);
            Inv(t, row) && DrainedOrRunning(t, desired) && Owed(t) + Writes(s, es) <= Owed(s)
    decreases |es|
  {
    RunInv(s, es, row);
    if es != [] {
      var last := |es| - 1;
      DrainingRun(s, es[..last], row, desired);
      DrainedStep(Run(s, es[..last]), es[last], desired);
      DrainingStep(Run(s, es[..last]), es[last], desired);
    }
  }

  /** A running worker always has a step of its own to take. */
  lemma WorkerCanStep(s: System, desired: Id)
    requires WorkersOk(s) && SelectionOk(s) && Draining(s, desired) && s.queue.workerRunning
    ensures exists e :: Quiet(e) && Rank(Next(s, e)) < Rank(s)
  {
    var w :| 0 <= w < |s.workers| && s.workers[w].armed;
    var e := match s.lock
      case Free => Acquire(w)
      case _ => match s.lock.job
        case Untaken => Take
        case InFlight(_) => Write(true)
        case Written(_, _) => Finish;
    DrainingStep(s, e, desired);
    assert Quiet(e) && Rank(Next(s, e)) < Rank(s);
  }

  /** From any reachable state with a waiting request and a live worker, in
      any schedule without new emits, flushes, panics or failed writes: at
      most two more writes happen, the worker exits only with nothing waiting
      and the row equal to the accepted selection, and until it has exited
      some step brings it strictly closer, at most eight of them in all. */
  lemma LiveWorkerDrains(row: Option<Id>, seeded: bool, before: seq<Event>, es: seq<Event>)
    requires var s := Run(Start(row, seeded), before);
             s.queue.pending.Some? && Live(s) && AllQuiet(es)
    ensures var s := Run(Start(row, seeded), before);
            var t := Run(s, es);
            && Writes(s, es) <= 2
            && t.queue.latestDesired == s.queue.latestDesired
            && (!t.queue.workerRunning ==> t.queue.pending.None? && t.lock.Free? && t.row == s.queue.latestDesired)
            && (t.queue.workerRunning ==> exists e :: Quiet(e) && Rank(Next(t, e)) < Rank(t))
            && Rank(s) <= 8
  {
    var s := Reachable(row, seeded, before);
    var desired := s.queue.latestDesired.value;
    DrainingRun(s, es, row, desired);
    var t := Run(s, es);
    if t.queue.workerRunning {
      WorkerCanStep(t, desired);
    }
  }
}
