/** Which failures reach the user, over whole runs. */
module PersistReports {
  import opened Basics
  import opened PersistQueue
  import opened PersistSystem

  /** The event ends the silence about a surfaced failure of `id`: that id was
      written, or another id was queued. */
  predicate Closes(r: Report, id: Id) {
    r == Persisted(id) || (r.Queued? && r.id != id)
  }

  /** A failure of `id` was shown, or taken by a flush. */
  predicate Tells(r: Report, id: Id) {
    r == Toasted(id) || r == Silenced(id)
  }

  /** A failure of `id` was told at `i` and nothing closed it since. */
  ghost predicate OpenSince(reports: seq<Report>, i: int, id: Id) {
    0 <= i < |reports| && Tells(reports[i], id) && forall k :: i < k < |reports| ==> !Closes(reports[k], id)
  }

  /** The queue remembers exactly the open failure, and only of the requested
      id. */
  ghost predicate ReportsOk(s: System) {
    && (s.queue.lastReportedFailure.Some? ==>
          && (s.queue.latestRequested.None? || s.queue.latestRequested == s.queue.lastReportedFailure)
          && exists i :: OpenSince(s.reports, i, s.queue.lastReportedFailure.value))
    && (forall i, id :: OpenSince(s.reports, i, id) ==> s.queue.lastReportedFailure == Some(id))
  }

  /** Two failures told of one id are separated by a closing event. */
  ghost predicate ToastsOk(reports: seq<Report>) {
    forall i, j, id :: 0 <= i < j < |reports| && Tells(reports[i], id) && Tells(reports[j], id) ==>
      exists k :: i < k < j && Closes(reports[k], id)
  }

  function NewReports(s: System, e: Event): seq<Report> {
    match e
    case Emit(id, revision) => if id != "" && Queues(s.queue, id, revision) then [Queued(id)] else []
    case Finish => if !s.lock.Free? && s.lock.job.Written? then Outcome(s, s.lock.job.request, s.lock.job.ok) else []
    case _ => []
  }

  lemma ReportsGrow(s: System, e: Event)
    ensures Next(s, e).reports == s.reports + NewReports(s, e) && |NewReports(s, e)| <= 1
  {
  }

  /** A failure is only told of an id that has no open one. */
  lemma MemoryStep(s: System, e: Event)
    requires ReportsOk(s)
    ensures var q := Next(s, e).queue;
            var told := NewReports(s, e);
            && (q.lastReportedFailure.Some? ==>
                  && (q.latestRequested.None? || q.latestRequested == q.lastReportedFailure)
                  && ((told != [] && Tells(told[0], q.lastReportedFailure.value))
                      || (q.lastReportedFailure == s.queue.lastReportedFailure
                          && (told != [] ==> !Closes(told[0], q.lastReportedFailure.value)))))
            && (forall id :: s.queue.lastReportedFailure == Some(id) && q.lastReportedFailure != Some(id) ==>
                  told != [] && Closes(told[0], id))
            && (forall id :: told != [] && Tells(told[0], id) ==>
                  q.lastReportedFailure == Some(id) && s.queue.lastReportedFailure != Some(id))
  {
  }

  /** One more report, and which failures are open then. */
  lemma OpenGrows(reports: seq<Report>, told: seq<Report>, i: int, id: Id)
    requires |told| <= 1
    ensures OpenSince(reports + told, i, id) <==>
            || (OpenSince(reports, i, id) && (told != [] ==> !Closes(told[0], id)))
            || (told != [] && i == |reports| && Tells(told[0], id))
  {
    var all := reports + told;
    assert forall k :: 0 <= k < |reports| ==> all[k] == reports[k];
    assert told != [] ==> all[|reports|] == told[0];
  }

  lemma ReportsStep(s: System, e: Event)
    requires ReportsOk(s) && ToastsOk(s.reports)
    ensures ReportsOk(Next(s, e)) && ToastsOk(Next(s, e).reports)
  {
    var t, told := Next(s, e), NewReports(s, e);
    var n := |s.reports|;
    ReportsGrow(s, e);
    MemoryStep(s, e);
    forall i, id ensures OpenSince(t.reports, i, id) <==>
                         || (OpenSince(s.reports, i, id) && (told != [] ==> !Closes(told[0], id)))
                         || (told != [] && i == n && Tells(told[0], id)) {
      OpenGrows(s.reports, told, i, id);
    }
    if t.queue.lastReportedFailure.Some? {
      var id := t.queue.lastReportedFailure.value;
      var i := if told != [] && Tells(told[0], id) then n else var i :| OpenSince(s.reports, i, id); i;
      assert OpenSince(t.reports, i, id);
    }
    TellsOnce(s, told);
  }

  lemma TellsOnce(s: System, told: seq<Report>)
    requires ReportsOk(s) && ToastsOk(s.reports) && |told| <= 1
    requires forall id :: told != [] && Tells(told[0], id) ==> s.queue.lastReportedFailure != Some(id)
    ensures ToastsOk(s.reports + told)
  {
    var all, n := s.reports + told, |s.reports|;
    forall i, j, id | 0 <= i < j < |all| && Tells(all[i], id) && Tells(all[j], id)
      ensures exists k :: i < k < j && Closes(all[k], id)
    {
      if j < n {
        assert s.reports[i] == all[i] && s.reports[j] == all[j];
        var k :| i < k < j && Closes(s.reports[k], id);
        assert Closes(all[k], id);
      } else {
        assert all[i] == s.reports[i] && !OpenSince(s.reports, i, id);
        var k :| i < k < n && Closes(s.reports[k], id);
        assert Closes(all[k], id);
      }
    }
  }

  lemma {:induction false} ReportsRun(s: System, es: seq<Event>)
    requires ReportsOk(s) && ToastsOk(s.reports)
    ensures ReportsOk(Run(s, es)) && ToastsOk(Run(s, es).reports)
    decreases |es|
  {
    if es != [] {
      var last := |es| - 1;
      ReportsRun(s, es[..last]);
      ReportsStep(Run(s, es[..last]), es[last]);
    }
  }

  /** Over every run, flush failures and panics included, a failure of one id is
      told at most once, by a toast or by a failed flush, until that id is
      written or another is queued. */
  lemma FailureSurfacesOnce(row: Option<Id>, seeded: bool, es: seq<Event>, i: nat, j: nat, id: Id)
    requires var reports := Run(Start(row, seeded), es).reports;
             i < j < |reports| && Tells(reports[i], id) && Tells(reports[j], id)
    ensures var reports := Run(Start(row, seeded), es).reports;
            exists k :: i < k < j && Closes(reports[k], id)
  {
    ReportsRun(Start(row, seeded), es);
  }

  /** A worker's failed write is surfaced exactly when nothing newer waits and
      no failure of its id is open. (Once the generation counter has saturated
      a newer request can share the failed one's generation.) */
  lemma FailureSurfacesExactly(row: Option<Id>, seeded: bool, es: seq<Event>)
    requires var s := Run(Start(row, seeded), es);
             s.lock.ByWorker? && s.lock.job.Written? && !s.lock.job.ok && s.lock.job.request.generation < U64_MAX
    ensures var s := Run(Start(row, seeded), es);
            var id := s.lock.job.request.workspaceId;
            && (Next(s, Finish).reports == s.reports + [Toasted(id)] <==>
                  s.queue.pending.None? && !exists i :: OpenSince(s.reports, i, id))
            && (Next(s, Finish).reports == s.reports || Next(s, Finish).reports == s.reports + [Toasted(id)])
  {
    var s := Reachable(row, seeded, es);
    ReportsRun(Start(row, seeded), es);
    assert |s.reports + [Toasted(s.lock.job.request.workspaceId)]| == |s.reports| + 1;
    assert s.reports + [] == s.reports;
  }

  /** In every reachable state, finishing a failed write surfaces nothing
      while a newer request waits. Only once the generation counter has
      saturated can a waiting request share the failed one's generation, and
      then what surfaces is still the id that everybody asked for. */
  lemma SupersededFailuresStaySilent(row: Option<Id>, seeded: bool, es: seq<Event>)
    ensures var s := Run(Start(row, seeded), es);
            Next(s, Finish).reports != s.reports && s.lock.ByWorker? && s.lock.job.Written? && !s.lock.job.ok ==>
              && s.queue.latestDesired == Some(s.lock.job.request.workspaceId)
              && (s.queue.pending.Some? ==> s.lock.job.request.generation == U64_MAX)
  {
    var s := Reachable(row, seeded, es);
  }
}
