/** Exactly which emits are lost while a flush is writing. */
module PersistFlush {
  import opened Basics
  import opened PersistQueue
  import opened PersistSystem
  import opened PersistDurability

  /** A flush holds the write lock, with a request. */
  predicate Flushing(s: System) {
    s.lock.ByFlush? && !s.lock.job.Untaken?
  }

  function FlushId(s: System): Id
    requires Flushing(s)
  {
    s.lock.job.request.workspaceId
  }

  /** The accepted selection is neither what the flush writes nor waiting. */
  predicate Lost(s: System)
    requires Flushing(s)
  {
    s.queue.pending.None? && s.queue.latestDesired != Some(FlushId(s))
  }

  /** An emit that changes the accepted selection. */
  predicate Accepts(s: System, e: Event) {
    e.Emit? && e.id != "" && !Stale(s.queue, e.id, e.revision)
  }

  /** The emit finds no worker and nothing waiting, and returns to the selection
      that the queue remembers as persisted. */
  predicate ReturnsToTheRemembered(s: System, e: Event)
    requires Flushing(s) && e.Emit?
  {
    !s.queue.workerRunning && s.queue.pending.None? && s.queue.lastPersisted == Some(e.id) && e.id != FlushId(s)
  }

  /** A running worker with nothing waiting has nothing older to answer for,
      and during a flush nobody has asked for anything else. */
  ghost predicate IdleOk(s: System) {
    s.queue.workerRunning && s.queue.pending.None? ==>
      && (s.queue.latestRequested.None? || s.queue.latestRequested == s.queue.latestDesired)
      && (Flushing(s) ==> s.queue.latestDesired == Some(FlushId(s)))
  }

  lemma IdleStep(s: System, e: Event)
    requires WorkersOk(s) && SelectionOk(s) && IdleOk(s)
    ensures IdleOk(Next(s, e))
  {
  }

  lemma {:induction false} IdleRun(s: System, es: seq<Event>, row: Option<Id>)
    requires Inv(s, row) && IdleOk(s)
    ensures Inv(Run(s, es), row) && IdleOk(Run(s, es))
    decreases |es|
  {
    RunInv(s, es, row);
    if es != [] {
      var last := |es| - 1;
      IdleRun(s, es[..last], row);
      IdleStep(Run(s, es[..last]), es[last]);
    }
  }

  /** While a flush holds the lock, a step leaves the accepted selection lost
      exactly if it is an accepted emit that returns to the remembered
      selection, or no accepted emit at all and the selection was lost before. */
  lemma LostStep(s: System, e: Event)
    requires WorkersOk(s) && SelectionOk(s) && IdleOk(s)
    requires Flushing(s) && Flushing(Next(s, e))
    ensures Lost(Next(s, e)) <==> if Accepts(s, e) then ReturnsToTheRemembered(s, e) else Lost(s)
    ensures FlushId(Next(s, e)) == FlushId(s)
  {
  }

  ghost predicate AcceptsAt(s: System, es: seq<Event>, k: int) {
    0 <= k < |es| && Accepts(Run(s, es[..k]), es[k])
  }

  /** The last accepted emit of the run. */
  ghost predicate IsLastAccepted(s: System, es: seq<Event>, k: int) {
    AcceptsAt(s, es, k) && forall j :: k < j ==> !AcceptsAt(s, es, j)
  }

  /** The last accepted emit of the run returned to the remembered selection. */
  ghost predicate LastReturns(s: System, es: seq<Event>) {
    exists k :: IsLastAccepted(s, es, k) && Flushing(Run(s, es[..k])) && ReturnsToTheRemembered(Run(s, es[..k]), es[k])
  }

  lemma AcceptsAtPrefix(s: System, es: seq<Event>, k: int)
    requires es != []
    ensures AcceptsAt(s, es, k) <==>
            AcceptsAt(s, es[..|es| - 1], k) || (k == |es| - 1 && Accepts(Run(s, es[..|es| - 1]), es[|es| - 1]))
  {
    if 0 <= k < |es| - 1 {
      assert es[..|es| - 1][..k] == es[..k];
    }
  }

  lemma LastReturnsStep(s: System, es: seq<Event>)
    requires es != [] && Flushing(Run(s, es[..|es| - 1]))
    ensures var last := |es| - 1;
            var m := Run(s, es[..last]);
            LastReturns(s, es) <==>
              if Accepts(m, es[last]) then ReturnsToTheRemembered(m, es[last]) else LastReturns(s, es[..last])
  {
    var last := |es| - 1;
    var before := es[..last];
    forall k ensures AcceptsAt(s, es, k) <==>
                     AcceptsAt(s, before, k) || (k == last && Accepts(Run(s, before), es[last])) {
      AcceptsAtPrefix(s, es, k);
    }
    if Accepts(Run(s, before), es[last]) {
      assert IsLastAccepted(s, es, last);
      assert forall k :: IsLastAccepted(s, es, k) ==> k == last;
    } else {
      assert forall k :: IsLastAccepted(s, es, k) <==> IsLastAccepted(s, before, k);
      assert forall k :: 0 <= k < last ==> before[..k] == es[..k];
    }
  }

  lemma {:induction false} LostRun(s: System, es: seq<Event>, row: Option<Id>)
    requires Inv(s, row) && IdleOk(s) && Flushing(s) && !Lost(s) && FlushHolds(s, es)
    ensures Flushing(Run(s, es)) && FlushId(Run(s, es)) == FlushId(s)
    ensures Lost(Run(s, es)) <==> LastReturns(s, es)
    decreases |es|
  {
    if es != [] {
      var last := |es| - 1;
      assert forall k :: 0 <= k <= last ==> es[..last][..k] == es[..k];
      LostRun(s, es[..last], row);
      IdleRun(s, es[..last], row);
      RunInv(s, es, row);
      assert Run(s, es[..|es|]).lock.ByFlush? && es[..|es|] == es;
      LostStep(Run(s, es[..last]), es[last]);
      LastReturnsStep(s, es);
    }
  }

  lemma FlushStarts(s: System, row: Option<Id>)
    requires Inv(s, row) && IdleOk(s) && s.lock.Free? && FlushHasWork(s.queue)
    ensures var locked := Next(s, Flush);
            Inv(locked, row) && IdleOk(locked) && Flushing(locked) && !Lost(locked)
  {
    WorkersStep(s, Flush);
    SelectionStep(s, Flush);
    RowStep(s, Flush, row);
    GenerationsStep(s, Flush);
    IdleStep(s, Flush);
  }

  lemma FlushEnds(s: System, row: Option<Id>)
    requires RowOk(s, row) && Flushing(s) && s.lock.job.Written? && s.lock.job.ok
    ensures var done := Next(s, Finish);
            (done.row == done.queue.latestDesired || done.queue.pending.Some?) <==> !Lost(s)
  {
  }

  /** After a successful flush the accepted selection is in the row or waiting,
      if and only if the last emit accepted during the flush, if any, did not
      return to the remembered selection while nobody worked. */
  lemma {:induction false} FlushLosesExactly(row: Option<Id>, seeded: bool, before: seq<Event>, during: seq<Event>)
    requires var s := Run(Start(row, seeded), before);
             && s.lock.Free? && FlushHasWork(s.queue)
             && FlushHolds(Next(s, Flush), during)
             && var t := Run(Next(s, Flush), during);
                t.lock.ByFlush? && t.lock.job.Written? && t.lock.job.ok
    ensures var s := Run(Start(row, seeded), before);
            var done := Next(Run(Next(s, Flush), during), Finish);
            (done.row == done.queue.latestDesired || done.queue.pending.Some?) <==> !LastReturns(Next(s, Flush), during)
  {
    var s := Run(Start(row, seeded), before);
    StartInv(row, seeded);
    IdleRun(Start(row, seeded), before, row);
    FlushStarts(s, row);
    LostRun(Next(s, Flush), during, row);
    RunInv(Next(s, Flush), during, row);
    FlushEnds(Run(Next(s, Flush), during), row);
  }
}
