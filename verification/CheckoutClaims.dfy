/** Claims on checkouts by closing workspaces and by chats that are still
    stopping, and the gates that consult them before files are deleted. */
module CheckoutClaims {
  import opened Basics
  import opened Paths

  predicate PathWithin(canon: Canon, path: Path, root: Path) {
    || root <= path
    || (canon(path).Some? && canon(root).Some? && canon(root).value <= canon(path).value)
  }

  datatype Key = Close(id: nat) | Stop(thread: string)

  /** A watch channel is named by the order of its creation. */
  type Chan = nat
  datatype Outcome = Unset | Stopped | Failed(error: string)

  datatype Claim = Claim(workspaceId: Option<string>, paths: seq<Path>, result: Chan)

  predicate Within(canon: Canon, paths: seq<Path>, root: Path) {
    exists i :: 0 <= i < |paths| && PathWithin(canon, paths[i], root)
  }

  datatype Session = Session(thread: string, workspaceId: Option<string>, cwd: Option<Path>)

  function Folders(cwd: Option<Path>): seq<Path> {
    if cwd.Some? then [cwd.value] else []
  }

  /** The claim map with the channels its entries read. */
  datatype Table = Table(claims: map<Key, Claim>, outcomes: seq<Outcome>, nextClose: nat)

  const CLOSE_ENDED := "closing the workspace ended before its agents stopped"
  const STOP_ENDED := "agent shutdown ended without reporting"

  function Claimed(t: Table, paths: seq<Path>): Table {
    Table(t.claims[Close(t.nextClose) := Claim(None, paths, |t.outcomes|)], t.outcomes + [Unset], t.nextClose + 1)
  }

  function Sent(t: Table, done: Chan, outcome: Outcome): Table
    requires done < |t.outcomes|
  {
    t.(outcomes := t.outcomes[done := outcome])
  }

  function SentIfUnset(t: Table, done: Chan, outcome: Outcome): Table
    requires done < |t.outcomes|
  {
    if t.outcomes[done].Unset? then Sent(t, done, outcome) else t
  }

  /** The handle of close claim `id` is gone. */
  function HandleDropped(t: Table, id: nat, done: Chan): Table
    requires done < |t.outcomes|
  {
    var u := SentIfUnset(t, done, Failed(CLOSE_ENDED));
    if u.outcomes[done].Stopped? then u.(claims := u.claims - {Close(id)}) else u
  }

  function Begun(t: Table, sessions: seq<Session>): Table
    decreases |sessions|
  {
    if sessions == [] then t
    else
      var s := sessions[0];
      Begun(Table(t.claims[Stop(s.thread) := Claim(s.workspaceId, Folders(s.cwd), |t.outcomes|)],
                  t.outcomes + [Unset], t.nextClose), sessions[1..])
  }

  /** The senders of a batch whose first channel is `first`. */
  function Senders(senders: map<string, Chan>, sessions: seq<Session>, first: Chan): map<string, Chan>
    decreases |sessions|
  {
    if sessions == [] then senders else Senders(senders[sessions[0].thread := first], sessions[1..], first + 1)
  }

  predicate Unmatchable(claim: Claim) {
    claim.paths == [] && claim.workspaceId.None?
  }

  /** A settled stop looks for its own claim and decides whether it stays. */
  function Swept(t: Table, thread: string, done: Chan): Table
    requires done < |t.outcomes|
  {
    var key := Stop(thread);
    if key in t.claims && t.claims[key].result == done && (t.outcomes[done].Stopped? || Unmatchable(t.claims[key]))
    then t.(claims := t.claims - {key})
    else t
  }

  predicate WellFormed(t: Table) {
    forall key :: key in t.claims ==> t.claims[key].result < |t.outcomes|
  }

  // ------------------------------------------------------------------ gates

  predicate IsOwn(key: Key, own: Option<nat>) {
    own.Some? && key == Close(own.value)
  }

  function OutcomeOf(t: Table, key: Key): Outcome
    requires WellFormed(t) && key in t.claims
  {
    t.outcomes[t.claims[key].result]
  }

  /** The first scan: no claim inside `root` failed. */
  predicate NoneFailedIn(t: Table, canon: Canon, root: Path)
    requires WellFormed(t)
  {
    forall key :: key in t.claims && Within(canon, t.claims[key].paths, root) ==> !OutcomeOf(t, key).Failed?
  }

  /** The second scan: no claim inside `root` but the caller's is unsettled. */
  predicate NoneStoppingIn(t: Table, canon: Canon, root: Path, own: Option<nat>)
    requires WellFormed(t)
  {
    forall key :: key in t.claims && !IsOwn(key, own) && Within(canon, t.claims[key].paths, root) ==>
        !OutcomeOf(t, key).Unset?
  }

  /** `refuse_in` lets a deletion pass, both scans seeing one table. */
  predicate Passes(t: Table, canon: Canon, root: Path, own: Option<nat>)
    requires WellFormed(t)
  {
    NoneFailedIn(t, canon, root) && NoneStoppingIn(t, canon, root, own)
  }

  function ClaimsIn(t: Table, canon: Canon, root: Path, own: Option<nat>): set<Chan> {
    set key | key in t.claims && !IsOwn(key, own) && Within(canon, t.claims[key].paths, root) :: t.claims[key].result
  }

  predicate HeldIn(t: Table, canon: Canon, root: Path) {
    exists key :: key in t.claims && Within(canon, t.claims[key].paths, root)
  }

  /** Cleanup is never laxer than deletion: a root nobody holds passes the
      deletion gate, for every caller. */
  lemma {:induction false} UnheldPasses(t: Table, canon: Canon, root: Path, own: Option<nat>)
    requires WellFormed(t) && !HeldIn(t, canon, root)
    ensures Passes(t, canon, root, own) && ClaimsIn(t, canon, root, own) == {}
  {
    forall key | key in t.claims ensures !Within(canon, t.claims[key].paths, root) {}
  }

  // --------------------------------------------------------- the mutable map

  class ClaimTable {
    var claims: map<Key, Claim>
    var outcomes: seq<Outcome>
    var nextClose: nat

    ghost function State(): Table
      reads this
    {
      Table(claims, outcomes, nextClose)
    }

    constructor ()
      ensures State() == Table(map[], [], 0)
    {
      claims, outcomes, nextClose := map[], [], 0;
    }

    method ClaimPaths(paths: seq<Path>) returns (handle: CloseClaim)
      modifies this
      ensures State() == Claimed(old(State()), paths)
      ensures fresh(handle) && handle.id == old(nextClose) && handle.done == |old(outcomes)|
    {
      handle := new CloseClaim(nextClose, |outcomes|);
      claims := claims[Close(nextClose) := Claim(None, paths, |outcomes|)];
      outcomes := outcomes + [Unset];
      nextClose := nextClose + 1;
    }

    /** Claims every session's stop, a later one replacing an earlier one of
        the same thread; `stops` lists their channels in order. */
    method BeginStops(sessions: seq<Session>) returns (batch: StopBatch, stops: seq<Chan>)
      modifies this
      ensures State() == Begun(old(State()), sessions)
      ensures fresh(batch) && batch.senders == Senders(map[], sessions, |old(outcomes)|)
      ensures |stops| == |sessions| && forall i :: 0 <= i < |stops| ==> stops[i] == |old(outcomes)| + i
    {
      var senders: map<string, Chan> := map[];
      stops := [];
      for i := 0 to |sessions|
        invariant |stops| == i && |outcomes| == |old(outcomes)| + i
        invariant forall k :: 0 <= k < i ==> stops[k] == |old(outcomes)| + k
        invariant Begun(State(), sessions[i..]) == Begun(old(State()), sessions)
        invariant Senders(senders, sessions[i..], |outcomes|) == Senders(map[], sessions, |old(outcomes)|)
      {
        var s := sessions[i];
        assert sessions[i..][0] == s && sessions[i..][1..] == sessions[i + 1..];
        var done := |outcomes|;
        stops := stops + [done];
        claims := claims[Stop(s.thread) := Claim(s.workspaceId, Folders(s.cwd), done)];
        outcomes := outcomes + [Unset];
        senders := senders[s.thread := done];
      }
      batch := new StopBatch(senders);
    }
  }

  class CloseClaim {
    const id: nat
    const done: Chan

    constructor (id: nat, done: Chan)
      ensures this.id == id && this.done == done
    {
      this.id, this.done := id, done;
    }

    method ReportStopped(table: ClaimTable)
      requires done < |table.outcomes|
      modifies table
      ensures table.State() == SentIfUnset(old(table.State()), done, Stopped)
    {
      if table.outcomes[done].Unset? {
        table.outcomes := table.outcomes[done := Stopped];
      }
    }

    /** Consumes the handle. */
    method ReportFailed(table: ClaimTable, error: string)
      requires done < |table.outcomes|
      modifies table
      ensures table.State() == Sent(old(table.State()), done, Failed(error))
    {
      table.outcomes := table.outcomes[done := Failed(error)];
      Drop(table);
    }

    /** Consumes the handle. */
    method Release(table: ClaimTable)
      requires done < |table.outcomes|
      modifies table
      ensures table.State() == HandleDropped(SentIfUnset(old(table.State()), done, Stopped), id, done)
    {
      ReportStopped(table);
      Drop(table);
    }

    method Drop(table: ClaimTable)
      requires done < |table.outcomes|
      modifies table
      ensures table.State() == HandleDropped(old(table.State()), id, done)
    {
      if table.outcomes[done].Unset? {
        table.outcomes := table.outcomes[done := Failed(CLOSE_ENDED)];
      }
      if table.outcomes[done].Stopped? {
        table.claims := table.claims - {Close(id)};
      }
    }
  }

  class StopBatch {
    var senders: map<string, Chan>

    constructor (senders: map<string, Chan>)
      ensures this.senders == senders
    {
      this.senders := senders;
    }

    method Settle(table: ClaimTable, thread: string, outcome: Outcome)
      requires !outcome.Unset?
      requires forall t :: t in senders ==> senders[t] < |table.outcomes|
      modifies this, table
      ensures thread !in old(senders) ==> senders == old(senders) && table.State() == old(table.State())
      ensures thread in old(senders) ==>
                && senders == old(senders) - {thread}
                && var done := old(senders)[thread];
                   table.State() == Swept(Sent(old(table.State()), done, outcome), thread, done)
    {
      if thread !in senders {
        return;
      }
      var done := senders[thread];
      senders := senders - {thread};
      table.outcomes := table.outcomes[done := outcome];
      var key := Stop(thread);
      if key !in table.claims || table.claims[key].result != done {
        return;
      }
      if outcome.Stopped? || (table.claims[key].paths == [] && table.claims[key].workspaceId.None?) {
        table.claims := table.claims - {key};
      }
    }

    /** Whatever is still unsettled failed. */
    method Drop(table: ClaimTable)
      requires forall t :: t in senders ==> senders[t] < |table.outcomes|
      modifies this, table
      ensures senders == map[] && |table.outcomes| == |old(table.outcomes)| && table.nextClose == old(table.nextClose)
      ensures forall c :: 0 <= c < |table.outcomes| ==>
                table.outcomes[c] == if c in old(senders).Values then Failed(STOP_ENDED) else old(table.outcomes)[c]
      ensures table.claims ==
                map key | key in old(table.claims) && !Abandons(old(senders), key, old(table.claims)[key])
                  :: old(table.claims)[key]
    {
      while senders != map[]
        invariant senders.Keys <= old(senders.Keys)
        invariant PartlyDropped(old(senders), old(table.State()), senders, table.State())
        decreases senders.Keys
      {
        var thread :| thread in senders;
        ghost var before := table.State();
        DroppingOne(old(senders), old(table.State()), senders, before, thread);
        Settle(table, thread, Failed(STOP_ENDED));
      }
    }
  }

  /** The batch `all` is being dropped on table `t`; what is left of the two is
      `left` and `u`. */
  ghost predicate PartlyDropped(all: map<string, Chan>, t: Table, left: map<string, Chan>, u: Table) {
    && (forall thread :: thread in left ==> thread in all && left[thread] == all[thread])
    && |u.outcomes| == |t.outcomes| && u.nextClose == t.nextClose
    && (forall c :: 0 <= c < |u.outcomes| ==>
          u.outcomes[c] == if Settled(all, left, c) then Failed(STOP_ENDED) else t.outcomes[c])
    && (forall key :: key in u.claims <==>
          && key in t.claims
          && ((key.Stop? && key.thread in left) || !Abandons(all, key, t.claims[key])))
    && (forall key :: key in u.claims ==> u.claims[key] == t.claims[key])
  }

  ghost predicate Settled(all: map<string, Chan>, left: map<string, Chan>, c: Chan) {
    exists thread :: thread in all && thread !in left && all[thread] == c
  }

  lemma DroppingOne(all: map<string, Chan>, t: Table, left: map<string, Chan>, u: Table, thread: string)
    requires PartlyDropped(all, t, left, u) && thread in left
    requires forall other :: other in all ==> all[other] < |t.outcomes|
    ensures var done := left[thread];
            PartlyDropped(all, t, left - {thread}, Swept(Sent(u, done, Failed(STOP_ENDED)), thread, done))
  {
    var done := left[thread];
    assert Settled(all, left - {thread}, done);
    forall c ensures Settled(all, left - {thread}, c) <==> c == done || Settled(all, left, c) {
      if x :| x in all && x !in left && all[x] == c {
        assert x !in left - {thread};
      }
    }
  }

  /** Dropping the batch removes the claim: it is the batch's own, and nothing
      could match it to a checkout. */
  predicate Abandons(senders: map<string, Chan>, key: Key, claim: Claim) {
    key.Stop? && key.thread in senders && senders[key.thread] == claim.result && Unmatchable(claim)
  }

  // ----------------------------------------------------------------- waiting

  /** What awaiting one channel returned: its outcome, or that its sender was
      dropped without one. */
  datatype Observation = Reported(outcome: Outcome) | SenderGone

  predicate Succeeded(o: Observation) {
    o == Reported(Stopped)
  }

  function ErrorOf(o: Observation): string {
    if o.SenderGone? then STOP_ENDED else if o.outcome.Failed? then o.outcome.error else ""
  }

  ghost predicate FirstErrorAt(observed: seq<Observation>, i: int, error: string) {
    && 0 <= i < |observed|
    && (observed[i] == Reported(Failed(error))
        || (observed[i].SenderGone? && error == "agent shutdown ended without reporting"))
    && forall j :: 0 <= j < i ==> observed[j] == Reported(Stopped)
  }

  /** Waits for every stop, in order, and returns the first error of any. */
  method WaitFor(observed: seq<Observation>) returns (firstError: Option<string>)
    requires forall i :: 0 <= i < |observed| ==> observed[i].SenderGone? || !observed[i].outcome.Unset?
    ensures firstError.None? <==> forall i :: 0 <= i < |observed| ==> observed[i] == Reported(Stopped)
    ensures firstError.Some? ==> exists i :: FirstErrorAt(observed, i, firstError.value)
  {
    firstError := None;
    for i := 0 to |observed|
      invariant firstError.None? <==> forall k :: 0 <= k < i ==> Succeeded(observed[k])
      invariant firstError.Some? ==> exists k :: k < i && FirstErrorAt(observed, k, firstError.value)
    {
      if !Succeeded(observed[i]) && firstError.None? {
        firstError := Some(ErrorOf(observed[i]));
        assert FirstErrorAt(observed, i, firstError.value);
      }
    }
  }
}
