/** What is reported and remembered of a turn, told by what its call returned
    and by the events that came before. */
module HermesOutcomes {
  import opened Basics
  import opened HermesTurns
  import opened HermesRuns

  /** The call came back with a complete answer, nobody having cancelled the
      turn, and with the tools intact. */
  predicate IsComplete(cancelSeen: bool, e: Ending) {
    match e.outcome
    case Raised => false
    case Shapeless => false
    case Answer(interrupted, failed, completed, _, _, _, _) =>
      e.catalogOk && completed && !failed && !interrupted && !cancelSeen
  }

  /** In every run, the status of every finished turn: success for a complete
      answer whose text is empty or fits in a message; cancelled for a call that
      came back with the tools intact from an interrupted or cancelled turn;
      an error for everything else. */
  lemma StatusExactly(es: seq<Event>, i: nat)
    requires i < |Run(es).completions|
    ensures i < |Run(es).tasks| && Run(es).tasks[i].stage.Ended?
    ensures var task, status := Run(es).tasks[i], Run(es).completions[i].status;
            var e := task.stage.ending;
            && (status == Success <==>
                  IsComplete(task.cancelSeen, e) && (e.outcome.final == "" || e.textFits))
            && (status == Cancelled <==>
                  && e.catalogOk
                  && ((task.cancelSeen && !e.outcome.Raised?) || (e.outcome.Answer? && e.outcome.interrupted)))
            && (status == Error <==> status != Success && status != Cancelled)
  {
    RunKeeps(es);
    assert EndedWith(Run(es), i);
  }

  /** Ending a turn replaces the remembered messages by its own if the answer is
      complete, and leaves them alone otherwise. */
  lemma HistoryExactly(es: seq<Event>, i: nat, e: Ending)
    requires i < |Run(es).tasks| && Run(es).tasks[i].stage.Calling?
    ensures var w := Run(es);
            Next(w, End(i, e)).runtime.history ==
              if IsComplete(w.tasks[i].cancelSeen, e) then e.outcome.messages else w.runtime.history
    ensures Next(Run(es), End(i, e)).runtime.active == None
  {
    RunKeeps(es);
    OnlyTheLastIsLive(Run(es), i);
  }

  // ------------------------------------------------------------------- tokens

  /** The library's totals, if it reports all four and none is negative. */
  predicate IsWhole(r: Reading) {
    && r.input.Some? && r.input.value >= 0 && r.output.Some? && r.output.value >= 0
    && r.cacheRead.Some? && r.cacheRead.value >= 0 && r.cacheWrite.Some? && r.cacheWrite.value >= 0
  }

  /** No count of the reading is below what has been reported before. */
  predicate Grows(r: Reading, before: Counts)
    requires IsWhole(r)
  {
    && r.input.value >= before.input && r.output.value >= before.output
    && r.cacheRead.value >= before.cacheRead && r.cacheWrite.value >= before.cacheWrite
  }

  /** When a turn ends, tokens are reported exactly if the reading is whole and
      no count is below the sum of all reports before. The report then brings
      every sum up to the reading, and its total is the sum of its parts. */
  lemma TokensExactly(es: seq<Event>, i: nat, e: Ending)
    requires i < |Run(es).tasks| && Run(es).tasks[i].stage.Calling?
    ensures var before := Sum(Run(es).completions);
            var after := Next(Run(es), End(i, e)).completions;
            var told := after[|after| - 1];
            && |after| == |Run(es).completions| + 1
            && (told.tokens.Some? <==>
                  e.outcome.Answer? && IsWhole(e.outcome.reading) && Grows(e.outcome.reading, before))
            && (told.tokens.Some? ==>
                  var r, counts := e.outcome.reading, told.tokens.value.counts;
                  && counts.input == r.input.value - before.input && counts.output == r.output.value - before.output
                  && counts.cacheRead == r.cacheRead.value - before.cacheRead
                  && counts.cacheWrite == r.cacheWrite.value - before.cacheWrite
                  && told.tokens.value.total == counts.input + counts.output + counts.cacheRead + counts.cacheWrite)
            && told.numTurns == (if e.outcome.Answer? && e.outcome.apiCalls.Some? && e.outcome.apiCalls.value >= 0
                                 then e.outcome.apiCalls.value else 1)
  {
    RunKeeps(es);
  }

  // ------------------------------------------------------------------- starts

  ghost predicate InitializedAt(es: seq<Event>, k: int) {
    0 <= k < |es| && es[k] == Initialized && Dispose !in es[..k]
  }

  lemma ReadyStep(w: World, e: Event)
    ensures Next(w, e).runtime.closed <==> w.runtime.closed || e == Dispose
    ensures Next(w, e).runtime.agent <==> w.runtime.agent || (e == Initialized && !w.runtime.closed)
  {
  }

  lemma InitializedStep(es: seq<Event>, k: int)
    requires es != []
    ensures var before := es[..|es| - 1];
            InitializedAt(es, k) <==>
            InitializedAt(before, k) || (k == |before| && es[k] == Initialized && Dispose !in before)
  {
    if 0 <= k < |es| - 1 {
      assert es[..|es| - 1][..k] == es[..k];
    }
  }

  /** The runtime is ready exactly if it was initialized before any disposal,
      and closed exactly if it was disposed of. */
  lemma {:induction false} ReadyExactly(es: seq<Event>)
    ensures Run(es).runtime.closed <==> Dispose in es
    ensures Run(es).runtime.agent <==> exists k :: InitializedAt(es, k)
    decreases |es|
  {
    if es != [] {
      var before, e := es[..|es| - 1], es[|es| - 1];
      ReadyExactly(before);
      ReadyStep(Run(before), e);
      assert es == before + [e];
      forall k ensures InitializedAt(es, k) <==>
                       InitializedAt(before, k) || (k == |before| && e == Initialized && Dispose !in before) {
        InitializedStep(es, k);
      }
      if e == Initialized && Dispose !in before {
        assert InitializedAt(es, |before|);
      }
    }
  }

  /** A turn is accepted exactly if the runtime was initialized and not disposed
      of, no turn is under way, the request is well formed and the tools are
      intact. */
  lemma StartsExactly(es: seq<Event>, turn: Option<Turn>, catalogOk: bool)
    ensures var w := Run(es);
            var accepted := Next(w, Start(turn, catalogOk)).tasks != w.tasks;
            accepted <==>
              && Initialized in es && Dispose !in es && |w.tasks| == |w.completions|
              && turn.Some? && catalogOk
    ensures var w := Run(es);
            var t := Next(w, Start(turn, catalogOk));
            t.tasks != w.tasks ==> t.tasks == w.tasks + [Task(turn.value, Scheduled, false)]
  {
    RunKeeps(es);
    ReadyExactly(es);
    if Initialized in es && Dispose !in es {
      var k :| 0 <= k < |es| && es[k] == Initialized;
      assert InitializedAt(es, k);
    }
    var w := Run(es);
    assert turn.Some? ==> |w.tasks + [Task(turn.value, Scheduled, false)]| == |w.tasks| + 1;
  }
}
