/** The managed Hermes runtime: one turn at a time over a library that runs
    in a thread, with cancellation and cumulative token accounting. */
module HermesTurns {
  import opened Basics

  type Messages = seq<string>

  // ------------------------------------------------------------------- usage

  /** The library's running totals; `None` for a count that is missing or is
      not an integer. */
  datatype Reading = Reading(input: Option<int>, output: Option<int>, cacheRead: Option<int>, cacheWrite: Option<int>)
  datatype Counts = Counts(input: int, output: int, cacheRead: int, cacheWrite: int)
  datatype Tokens = Tokens(counts: Counts, total: int)

  const NOTHING := Counts(0, 0, 0, 0)
  const UNREAD := Reading(None, None, None, None)

  function Plus(a: Counts, b: Counts): Counts {
    Counts(a.input + b.input, a.output + b.output, a.cacheRead + b.cacheRead, a.cacheWrite + b.cacheWrite)
  }

  function Minus(a: Counts, b: Counts): Counts {
    Counts(a.input - b.input, a.output - b.output, a.cacheRead - b.cacheRead, a.cacheWrite - b.cacheWrite)
  }

  function Total(a: Counts): int {
    a.input + a.output + a.cacheRead + a.cacheWrite
  }

  predicate AtLeast(a: Counts, b: Counts) {
    a.input >= b.input && a.output >= b.output && a.cacheRead >= b.cacheRead && a.cacheWrite >= b.cacheWrite
  }

  predicate Readable(r: Reading) {
    && r.input.Some? && r.output.Some? && r.cacheRead.Some? && r.cacheWrite.Some?
    && AtLeast(Read(r), NOTHING)
  }

  function Read(r: Reading): Counts
    requires r.input.Some? && r.output.Some? && r.cacheRead.Some? && r.cacheWrite.Some?
  {
    Counts(r.input.value, r.output.value, r.cacheRead.value, r.cacheWrite.value)
  }

  function Known(totals: Option<Counts>): Counts {
    if totals.Some? then totals.value else NOTHING
  }

  /** A reading is billed when it is whole and no count went backwards. */
  predicate Billed(totals: Option<Counts>, r: Reading) {
    Readable(r) && AtLeast(Read(r), Known(totals))
  }

  // ------------------------------------------------------------------- turns

  datatype Turn = Turn(turnId: string, prompt: string)

  /** What the library call came to: an exception, a value that is no
      dictionary, or an answer. `completed` is "is exactly `True`"; `failed`
      joins the error, failed and partial marks. */
  datatype Outcome =
    | Raised
    | Shapeless
    | Answer(interrupted: bool, failed: bool, completed: bool, messages: Option<Messages>, final: string,
             apiCalls: Option<int>, reading: Reading)

  /** What the world did at the end of a turn: the call's outcome, whether the
      tool catalog was still intact, and whether the text fits in a message. */
  datatype Ending = Ending(outcome: Outcome, catalogOk: bool, textFits: bool)

  datatype Status = Success | Cancelled | Error

  datatype Completion = Completion(turnId: string, status: Status, numTurns: int, tokens: Option<Tokens>)

  datatype RuntimeState = RuntimeState(
    agent: bool,
    active: Option<string>,
    cancelled: bool,
    closed: bool,
    history: Option<Messages>,
    totals: Option<Counts>)

  const FRESH := RuntimeState(false, None, false, false, None, None)

  predicate Accepts(r: RuntimeState, turn: Option<Turn>, catalogOk: bool) {
    r.agent && !r.closed && r.active.None? && turn.Some? && catalogOk
  }

  function AfterStart(r: RuntimeState, turn: Option<Turn>, catalogOk: bool): RuntimeState {
    if Accepts(r, turn, catalogOk) then r.(active := Some(turn.value.turnId), cancelled := false) else r
  }

  /** The turn reached its answer: nobody cancelled it and the library says
      it is complete. */
  predicate Answered(cancelled: bool, e: Ending) {
    && e.catalogOk && !cancelled
    && e.outcome.Answer? && !e.outcome.interrupted && !e.outcome.failed && e.outcome.completed
  }

  predicate SendsText(cancelled: bool, e: Ending) {
    Answered(cancelled, e) && e.outcome.final != ""
  }

  function StatusOf(cancelled: bool, e: Ending): Status {
    if Answered(cancelled, e) && (e.outcome.final == "" || e.textFits) then Success
    else if !e.outcome.Raised? && e.catalogOk && (cancelled || (e.outcome.Answer? && e.outcome.interrupted))
    then Cancelled
    else Error
  }

  function ReadingOf(e: Ending): Reading {
    if e.outcome.Answer? then e.outcome.reading else UNREAD
  }

  function NumTurns(e: Ending): int {
    if e.outcome.Answer? && e.outcome.apiCalls.Some? && e.outcome.apiCalls.value >= 0
    then e.outcome.apiCalls.value else 1
  }

  function TokensOf(totals: Option<Counts>, r: Reading): Option<Tokens> {
    if Billed(totals, r) then
      var delta := Minus(Read(r), Known(totals));
      Some(Tokens(delta, Total(delta)))
    else None
  }

  function TotalsAfter(totals: Option<Counts>, r: Reading): Option<Counts> {
    if Billed(totals, r) then Some(Read(r)) else totals
  }

  function CompletionOf(r: RuntimeState, turnId: string, e: Ending): Completion {
    Completion(turnId, StatusOf(r.cancelled, e), NumTurns(e), TokensOf(r.totals, ReadingOf(e)))
  }

  function AfterEnd(r: RuntimeState, e: Ending): RuntimeState {
    r.(active := None,
       history := if Answered(r.cancelled, e) then e.outcome.messages else r.history,
       totals := TotalsAfter(r.totals, ReadingOf(e)))
  }

  class Runtime {
    var agent: bool
    var active: Option<string>
    var cancelled: bool
    var closed: bool
    var history: Option<Messages>
    var usageTotals: Option<Counts>

    ghost function State(): RuntimeState
      reads this
    {
      RuntimeState(agent, active, cancelled, closed, history, usageTotals)
    }

    constructor ()
      ensures State() == FRESH
    {
      agent, active, cancelled, closed := false, None, false, false;
      history, usageTotals := None, None;
    }

    /** The tokens to report for one reading of the running totals. */
    method Usage(reading: Reading) returns (tokens: Option<Tokens>)
      modifies this`usageTotals
      ensures tokens == TokensOf(old(usageTotals), reading)
      ensures usageTotals == TotalsAfter(old(usageTotals), reading)
      ensures tokens.Some? ==> Plus(Known(old(usageTotals)), tokens.value.counts) == Known(usageTotals)
    {
      tokens := None;
      if Readable(reading) {
        var current := Read(reading);
        var previous := if usageTotals.Some? then usageTotals.value else NOTHING;
        if AtLeast(current, previous) {
          var delta := Minus(current, previous);
          tokens := Some(Tokens(delta, Total(delta)));
          usageTotals := Some(current);
        }
      }
    }

    /** Returns whether the turn was accepted and its task scheduled. */
    method Start(turn: Option<Turn>, catalogOk: bool) returns (accepted: bool)
      modifies this
      ensures accepted <==> Accepts(old(State()), turn, catalogOk)
      ensures State() == AfterStart(old(State()), turn, catalogOk)
    {
      if !agent || closed || active.Some? || turn.None? {
        return false;
      }
      if !catalogOk {
        return false;
      }
      active := Some(turn.value.turnId);
      cancelled := false;
      return true;
    }

    /** The part of a turn's task after the library call, which nothing
        interleaves with. Returns the two notifications. */
    method EndTurn(turnId: string, e: Ending) returns (text: Option<string>, complete: Completion)
      modifies this
      ensures State() == AfterEnd(old(State()), e)
      ensures complete == CompletionOf(old(State()), turnId, e)
      ensures text == if SendsText(old(cancelled), e) && e.textFits then Some(e.outcome.final) else None
      ensures text.Some? <==> complete.status == Success && e.outcome.Answer? && e.outcome.final != ""
    {
      text := None;
      var status := Success;
      if e.outcome.Raised? || !e.catalogOk {
        status := Error;
      } else if cancelled || (e.outcome.Answer? && e.outcome.interrupted) {
        status := Cancelled;
      } else if e.outcome.Shapeless? || e.outcome.failed || !e.outcome.completed {
        status := Error;
      } else {
        history := e.outcome.messages;
        if e.outcome.final != "" {
          if e.textFits {
            text := Some(e.outcome.final);
          } else {
            status := Error;
          }
        }
      }
      active := None;
      var tokens := Usage(ReadingOf(e));
      complete := Completion(turnId, status, NumTurns(e), tokens);
    }

    method Cancel()
      modifies this
      ensures State() == old(State()).(cancelled := true)
    {
      cancelled := true;
    }

    /** The part of disposal before the library is interrupted. */
    method Close()
      modifies this
      ensures State() == old(State()).(cancelled := true, closed := true)
    {
      closed := true;
      Cancel();
    }
  }
}
