/** The managed Hermes runtime over whole runs: requests arrive and turn tasks
    progress in any order the event loop allows. */
module HermesRuns {
  import opened Basics
  import opened HermesTurns

  datatype Stage = Scheduled | Calling(given: Option<Messages>) | Ended(given: Option<Messages>, ending: Ending)

  /** An accepted turn. `cancelSeen` is a history: a cancel or a disposal
      arrived after the turn's start and before its end. */
  datatype Task = Task(turn: Turn, stage: Stage, cancelSeen: bool)

  /** `tasks` are the accepted turns in the order of their starts,
      `completions` the complete messages in the order they were sent. */
  datatype World = World(runtime: RuntimeState, tasks: seq<Task>, completions: seq<Completion>, released: bool)

  datatype Event =
    | Initialized
    | Start(turn: Option<Turn>, catalogOk: bool)
    | Call(task: nat)
    | End(task: nat, ending: Ending)
    | Cancel
    | Dispose
    | Release

  const START := World(FRESH, [], [], false)

  predicate Live(t: Task) {
    !t.stage.Ended?
  }

  function Noticed(tasks: seq<Task>): seq<Task> {
    seq(|tasks|, i requires 0 <= i < |tasks| => if Live(tasks[i]) then tasks[i].(cancelSeen := true) else tasks[i])
  }

  function EndStep(w: World, i: nat, e: Ending): World
    requires i < |w.tasks| && w.tasks[i].stage.Calling?
  {
    var task := w.tasks[i];
    w.(runtime := AfterEnd(w.runtime, e),
       tasks := w.tasks[i := task.(stage := Ended(task.stage.given, e))],
       completions := w.completions + [CompletionOf(w.runtime, task.turn.turnId, e)])
  }

  /** One step; an event that is not enabled changes nothing. `Release` is the
      last part of a disposal: the library is closed if no turn is active. */
  function Next(w: World, e: Event): World {
    match e
    case Initialized => if w.runtime.closed then w else w.(runtime := w.runtime.(agent := true))
    case Start(turn, catalogOk) =>
      if Accepts(w.runtime, turn, catalogOk)
      then w.(runtime := AfterStart(w.runtime, turn, catalogOk),
              tasks := w.tasks + [Task(turn.value, Scheduled, false)])
      else w
    case Call(i) =>
      if i < |w.tasks| && w.tasks[i].stage.Scheduled?
      then w.(tasks := w.tasks[i := w.tasks[i].(stage := Calling(w.runtime.history))])
      else w
    case End(i, ending) => if i < |w.tasks| && w.tasks[i].stage.Calling? then EndStep(w, i, ending) else w
    case Cancel => w.(runtime := w.runtime.(cancelled := true), tasks := Noticed(w.tasks))
    case Dispose => w.(runtime := w.runtime.(cancelled := true, closed := true), tasks := Noticed(w.tasks))
    case Release =>
      if w.runtime.closed && w.runtime.agent && w.runtime.active.None? then w.(released := true) else w
  }

  function Run(es: seq<Event>): World
    decreases |es|
  {
    if es == [] then START else Next(Run(es[..|es| - 1]), es[|es| - 1])
  }

  // --------------------------------------------------- what the past amounts to

  function Sum(completions: seq<Completion>): Counts
    decreases |completions|
  {
    if completions == [] then NOTHING
    else
      var last := completions[|completions| - 1];
      var before := Sum(completions[..|completions| - 1]);
      if last.tokens.Some? then Plus(before, last.tokens.value.counts) else before
  }

  /** The messages of the latest turn that reached its answer. */
  function LastAnswer(tasks: seq<Task>): Option<Messages>
    decreases |tasks|
  {
    if tasks == [] then None
    else
      var t := tasks[|tasks| - 1];
      if t.stage.Ended? && Answered(t.cancelSeen, t.stage.ending) then t.stage.ending.outcome.messages
      else LastAnswer(tasks[..|tasks| - 1])
  }

  function Given(t: Task): Option<Messages>
    requires !t.stage.Scheduled?
  {
    t.stage.given
  }

  ghost predicate Inv(w: World) {
    var r, n := w.runtime, |w.tasks|;
    && |w.completions| == (if r.active.Some? then n - 1 else n)
    && (forall i :: 0 <= i < |w.completions| ==> EndedWith(w, i))
    && (r.active.Some? ==>
          && n > 0 && Live(w.tasks[n - 1]) && r.active == Some(w.tasks[n - 1].turn.turnId)
          && r.cancelled == w.tasks[n - 1].cancelSeen)
    && (forall i :: 0 <= i < n ==> ContinuesTheLastAnswer(w.tasks, i))
    && r.history == LastAnswer(w.tasks)
    && Known(r.totals) == Sum(w.completions)
    && (w.released ==> r.closed && r.active.None?)
    && (r.closed ==> r.cancelled)
  }

  /** Turn `i` is over, and the `i`-th complete message is its own. */
  ghost predicate EndedWith(w: World, i: nat)
    requires i < |w.completions|
  {
    && i < |w.tasks| && w.tasks[i].stage.Ended?
    && w.completions[i].turnId == w.tasks[i].turn.turnId
    && w.completions[i].status == StatusOf(w.tasks[i].cancelSeen, w.tasks[i].stage.ending)
    && w.completions[i].numTurns == NumTurns(w.tasks[i].stage.ending)
    && (w.completions[i].tokens.Some? ==>
          && AtLeast(w.completions[i].tokens.value.counts, NOTHING)
          && w.completions[i].tokens.value.total == Total(w.completions[i].tokens.value.counts))
  }

  ghost predicate ContinuesTheLastAnswer(tasks: seq<Task>, i: nat)
    requires i < |tasks|
  {
    !tasks[i].stage.Scheduled? ==> Given(tasks[i]) == LastAnswer(tasks[..i])
  }

  /** The last answer depends only on the turns that are over. */
  lemma {:induction false} LastAnswerFrame(before: seq<Task>, after: seq<Task>)
    requires |before| == |after|
    requires forall i :: 0 <= i < |before| ==> before[i] == after[i] || (Live(before[i]) && Live(after[i]))
    ensures LastAnswer(before) == LastAnswer(after)
    decreases |before|
  {
    if before != [] {
      LastAnswerFrame(before[..|before| - 1], after[..|after| - 1]);
    }
  }

  lemma {:induction false} FrameKeepsContinuity(before: seq<Task>, after: seq<Task>)
    requires |before| == |after|
    requires forall i :: 0 <= i < |before| ==> before[i] == after[i] || (Live(before[i]) && Live(after[i]))
    ensures LastAnswer(before) == LastAnswer(after)
    ensures forall i :: 0 <= i <= |before| ==> LastAnswer(before[..i]) == LastAnswer(after[..i])
  {
    LastAnswerFrame(before, after);
    forall i | 0 <= i <= |before| ensures LastAnswer(before[..i]) == LastAnswer(after[..i]) {
      LastAnswerFrame(before[..i], after[..i]);
    }
  }

  lemma StartKeeps(w: World, turn: Option<Turn>, catalogOk: bool)
    requires Inv(w) && Accepts(w.runtime, turn, catalogOk)
    ensures Inv(Next(w, Start(turn, catalogOk)))
  {
    var t := Next(w, Start(turn, catalogOk));
    var n := |w.tasks|;
    assert t.tasks[..n] == w.tasks;
    forall i | 0 <= i < n ensures ContinuesTheLastAnswer(t.tasks, i) {
      assert ContinuesTheLastAnswer(w.tasks, i);
      assert t.tasks[..i] == w.tasks[..i];
    }
    forall i | 0 <= i < |t.completions| ensures EndedWith(t, i) {
      assert EndedWith(w, i);
    }
  }

  lemma NoticedKeeps(w: World, e: Event)
    requires Inv(w) && (e.Cancel? || e.Dispose?)
    ensures Inv(Next(w, e))
  {
    var t := Next(w, e);
    FrameKeepsContinuity(w.tasks, t.tasks);
    forall i | 0 <= i < |t.tasks| ensures ContinuesTheLastAnswer(t.tasks, i) {
      assert ContinuesTheLastAnswer(w.tasks, i);
    }
    forall i | 0 <= i < |t.completions| ensures EndedWith(t, i) {
      assert EndedWith(w, i);
    }
  }

  lemma CallKeeps(w: World, i: nat)
    requires Inv(w) && i < |w.tasks| && w.tasks[i].stage.Scheduled?
    ensures Inv(Next(w, Call(i)))
  {
    var t := Next(w, Call(i));
    var n := |w.tasks|;
    OnlyTheLastIsLive(w, i);
    FrameKeepsContinuity(w.tasks, t.tasks);
    forall k | 0 <= k < n ensures ContinuesTheLastAnswer(t.tasks, k) {
      assert ContinuesTheLastAnswer(w.tasks, k);
      assert w.tasks[..n - 1] == t.tasks[..n - 1];
    }
    forall k | 0 <= k < |t.completions| ensures EndedWith(t, k) {
      assert EndedWith(w, k);
    }
  }

  lemma OnlyTheLastIsLive(w: World, i: nat)
    requires Inv(w) && i < |w.tasks| && Live(w.tasks[i])
    ensures i == |w.tasks| - 1 && w.runtime.active == Some(w.tasks[i].turn.turnId)
  {
    forall k | 0 <= k < |w.completions| ensures !Live(w.tasks[k]) {
      assert EndedWith(w, k);
    }
  }

  lemma EndKeeps(w: World, i: nat, e: Ending)
    requires Inv(w) && i < |w.tasks| && w.tasks[i].stage.Calling?
    ensures Inv(EndStep(w, i, e))
  {
    var t := EndStep(w, i, e);
    var n := |w.tasks|;
    OnlyTheLastIsLive(w, i);
    assert t.tasks[..n - 1] == w.tasks[..n - 1];
    assert t.completions[..|w.completions|] == w.completions;
    forall k | 0 <= k < n ensures ContinuesTheLastAnswer(t.tasks, k) {
      assert ContinuesTheLastAnswer(w.tasks, k);
      assert t.tasks[..k] == w.tasks[..k];
    }
    forall k | 0 <= k < n ensures EndedWith(t, k) {
      if k < n - 1 {
        assert EndedWith(w, k);
      }
    }
    assert LastAnswer(w.tasks) == LastAnswer(w.tasks[..n - 1]);
  }

  lemma {:induction false} RunKeeps(es: seq<Event>)
    ensures Inv(Run(es))
    decreases |es|
  {
    if es != [] {
      var w, e := Run(es[..|es| - 1]), es[|es| - 1];
      RunKeeps(es[..|es| - 1]);
      StepKeeps(w, e);
    }
  }

  lemma StepKeeps(w: World, e: Event)
    requires Inv(w)
    ensures Inv(Next(w, e))
  {
    if Next(w, e) != w {
      match e {
        case Start(turn, catalogOk) => StartKeeps(w, turn, catalogOk);
        case Call(i) => CallKeeps(w, i);
        case End(i, ending) => EndKeeps(w, i, ending);
        case Cancel => NoticedKeeps(w, e);
        case Dispose => NoticedKeeps(w, e);
        case _ => OthersKeep(w, e);
      }
    }
  }

  lemma OthersKeep(w: World, e: Event)
    requires Inv(w) && (e.Initialized? || e.Release?)
    ensures Inv(Next(w, e))
  {
    var t := Next(w, e);
    forall i | 0 <= i < |t.completions| ensures EndedWith(t, i) {
      assert EndedWith(w, i);
    }
  }

  // ---------------------------------------------------------------- main results

  /** In every run each accepted turn gets exactly one complete message, in
      the order of the starts: the `i`-th message is the `i`-th turn's, and only
      the turn that is active, if any, still waits for its own. */
  lemma {:induction false} EveryTurnCompletesOnceInOrder(es: seq<Event>)
    ensures var w := Run(es);
            && |w.tasks| == |w.completions| + (if w.runtime.active.Some? then 1 else 0)
            && (forall i :: 0 <= i < |w.completions| ==>
                  w.tasks[i].stage.Ended? && w.completions[i].turnId == w.tasks[i].turn.turnId)
            && (w.runtime.active.Some? ==>
                  Live(w.tasks[|w.completions|]) && w.runtime.active == Some(w.tasks[|w.completions|].turn.turnId))
  {
    RunKeeps(es);
    var w := Run(es);
    forall i | 0 <= i < |w.completions|
      ensures w.tasks[i].stage.Ended? && w.completions[i].turnId == w.tasks[i].turn.turnId
    {
      assert EndedWith(w, i);
    }
  }

  /** A turn is reported cancelled exactly when its call came back with the
      tools intact and either the library says it was interrupted or a cancel or
      disposal arrived during that very turn: the runtime's own cancel mark
      never carries over from one turn to the next. */
  lemma OnlyItsOwnCancelCounts(es: seq<Event>, i: nat)
    requires i < |Run(es).completions|
    ensures i < |Run(es).tasks| && Run(es).tasks[i].stage.Ended?
    ensures var task := Run(es).tasks[i];
            var e := task.stage.ending;
            Run(es).completions[i].status == Cancelled <==>
              && !e.outcome.Raised? && e.catalogOk
              && (task.cancelSeen || (e.outcome.Answer? && e.outcome.interrupted))
  {
    RunKeeps(es);
    assert EndedWith(Run(es), i);
  }

  /** The token counts sent with the complete messages always add up to the
      totals on record, none of them is negative, and each total is the sum
      of its own parts. */
  lemma {:induction false} TokensAddUp(es: seq<Event>)
    ensures Sum(Run(es).completions) == Known(Run(es).runtime.totals)
    ensures forall c :: c in Run(es).completions && c.tokens.Some? ==>
              AtLeast(c.tokens.value.counts, NOTHING) && c.tokens.value.total == Total(c.tokens.value.counts)
  {
    RunKeeps(es);
    var w := Run(es);
    forall c | c in w.completions && c.tokens.Some?
      ensures AtLeast(c.tokens.value.counts, NOTHING) && c.tokens.value.total == Total(c.tokens.value.counts)
    {
      var i :| 0 <= i < |w.completions| && w.completions[i] == c;
      assert EndedWith(w, i);
    }
  }

  /** Every turn continues from the messages of the latest earlier turn that
      reached its answer, sent or not; other turns leave no trace. */
  lemma TurnsContinueTheLastAnswer(es: seq<Event>, i: nat)
    requires i < |Run(es).tasks| && !Run(es).tasks[i].stage.Scheduled?
    ensures Given(Run(es).tasks[i]) == LastAnswer(Run(es).tasks[..i])
  {
    RunKeeps(es);
    assert ContinuesTheLastAnswer(Run(es).tasks, i);
  }

  /** Once the library has been closed no turn is active or will ever be. */
  lemma {:induction false} NoTurnAfterRelease(es: seq<Event>, more: seq<Event>)
    requires Run(es).released
    ensures Run(es + more).released && Run(es + more).runtime.active.None?
    ensures Run(es + more).tasks == Run(es).tasks
    decreases |more|
  {
    if more == [] {
      RunKeeps(es);
      assert es + more == es;
    } else {
      var last := |more| - 1;
      NoTurnAfterRelease(es, more[..last]);
      RunKeeps(es + more[..last]);
      var w := Run(es + more[..last]);
      assert (es + more)[..|es + more| - 1] == es + more[..last];
      forall i | 0 <= i < |w.tasks| ensures !Live(w.tasks[i]) {
        assert EndedWith(w, i);
      }
      assert Noticed(w.tasks) == w.tasks;
    }
  }

  /** The latest turn that reached its answer. */
  function LastAnswered(tasks: seq<Task>): (i: Option<nat>)
    ensures i.Some? ==> i.value < |tasks|
    decreases |tasks|
  {
    if tasks == [] then None
    else
      var t := tasks[|tasks| - 1];
      if t.stage.Ended? && Answered(t.cancelSeen, t.stage.ending) then Some(|tasks| - 1)
      else LastAnswered(tasks[..|tasks| - 1])
  }

  /** What a finished turn leaves behind: a success its own messages, a
      cancelled turn nothing. A turn that is reported as an error is
      nevertheless the one that later turns continue, exactly if it reached its
      answer and the text did not fit in a message. */
  lemma ErrorIsRememberedExactly(es: seq<Event>, i: nat)
    requires i < |Run(es).completions|
    ensures i < |Run(es).tasks| && Run(es).tasks[i].stage.Ended?
    ensures var w := Run(es);
            var task, status := w.tasks[i], w.completions[i].status;
            var remembered := LastAnswered(w.tasks[..i + 1]) == Some(i);
            var e := task.stage.ending;
            && (status == Success ==> remembered)
            && (status == Cancelled ==> !remembered)
            && (status == Error && remembered <==> Answered(task.cancelSeen, e) && e.outcome.final != "" && !e.textFits)
            && LastAnswer(w.tasks[..i + 1]) == (if remembered then e.outcome.messages else LastAnswer(w.tasks[..i]))
            && (i + 1 < |w.tasks| && !w.tasks[i + 1].stage.Scheduled? ==>
                Given(w.tasks[i + 1]) == LastAnswer(w.tasks[..i + 1]))
  {
    RunKeeps(es);
    var w := Run(es);
    assert EndedWith(w, i);
    assert w.tasks[..i + 1][..i] == w.tasks[..i];
    if i + 1 < |w.tasks| {
      assert ContinuesTheLastAnswer(w.tasks, i + 1);
    }
  }

  /** A turn whose answer is too long for one message is reported as an error,
      yet the next turn continues from it. */
  lemma UnsentAnswerIsStillRemembered(turn: Turn, next: Turn, answer: Outcome)
    requires answer.Answer? && !answer.interrupted && !answer.failed && answer.completed && answer.final != ""
    ensures var es := [Initialized, Start(Some(turn), true), Call(0), End(0, Ending(answer, true, false)),
                       Start(Some(next), true), Call(1)];
            var w := Run(es);
            && |w.completions| == 1 && w.completions[0].status == Error
            && |w.tasks| == 2 && w.tasks[1].stage == Calling(answer.messages)
  {
    var e0, e1, e2, e3, e4, e5 := Initialized, Start(Some(turn), true), Call(0), End(0, Ending(answer, true, false)),
                                  Start(Some(next), true), Call(1);
    assert [e0][..0] == [] && [e0, e1][..1] == [e0] && [e0, e1, e2][..2] == [e0, e1];
    assert [e0, e1, e2, e3][..3] == [e0, e1, e2] && [e0, e1, e2, e3, e4][..4] == [e0, e1, e2, e3];
    assert [e0, e1, e2, e3, e4, e5][..5] == [e0, e1, e2, e3, e4];
    var w1 := Next(START, e0);
    var w2 := Next(w1, e1);
    var w3 := Next(w2, e2);
    var w4 := Next(w3, e3);
    var w5 := Next(w4, e4);
    assert Run([]) == START;
    assert Run([e0]) == w1;
    assert Run([e0, e1]) == w2;
    assert Run([e0, e1, e2]) == w3;
    assert Run([e0, e1, e2, e3]) == w4;
    assert Run([e0, e1, e2, e3, e4]) == w5;
  }
}
