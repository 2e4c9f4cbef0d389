/** What the deletion and cleanup gates promise over every run of claims. */
module ClaimGates {
  import opened Basics
  import opened Paths
  import opened CheckoutClaims
  import opened ClaimRuns

  // ---------------------------------------------------------------- outcomes

  /** One step leaves a failure as it is, and undoes a clean stop only by
      failing that very close claim. */
  lemma OutcomeStep(w: World, e: Event, c: Chan)
    requires Inv(w) && c < |w.table.outcomes|
    ensures c < |Next(w, e).table.outcomes|
    ensures Out(w, c).Failed? ==> Out(Next(w, e), c) == Out(w, c)
    ensures Out(w, c).Stopped? ==>
              Out(Next(w, e), c).Stopped? || (e.ReportFailed? && e.id in w.closes && w.closes[e.id] == c)
  {
    if Enabled(w, e) {
      match e
      case BeginStops(sessions) =>
        BeginAllIs(w, map[], sessions);
        BegunKeepsOutcomes(w.table, sessions);
      case Settle(sender, outcome) => assert SenderOk(w, sender);
      case TakeClaim(_) =>
      case Sweep(_) =>
      case _ => assert CloseOk(w, e.id);
    }
  }

  lemma {:induction false} BegunKeepsOutcomes(t: Table, sessions: seq<Session>)
    ensures t.outcomes <= Begun(t, sessions).outcomes
    decreases |sessions|
  {
    if sessions != [] {
      var s := sessions[0];
      BegunKeepsOutcomes(Table(t.claims[Stop(s.thread) := Claim(s.workspaceId, Folders(s.cwd), |t.outcomes|)],
                               t.outcomes + [Unset], t.nextClose), sessions[1..]);
    }
  }

  lemma {:induction false} FailureRun(w: World, es: seq<Event>, c: Chan)
    requires Inv(w) && c < |w.table.outcomes| && Out(w, c).Failed?
    ensures c < |Run(w, es).table.outcomes| && Out(Run(w, es), c) == Out(w, c)
    decreases |es|
  {
    if es != [] {
      FailureRun(w, es[..|es| - 1], c);
      RunKeeps(w, es[..|es| - 1]);
      OutcomeStep(Run(w, es[..|es| - 1]), es[|es| - 1], c);
    }
  }

  lemma {:induction false} TakenRun(w: World, es: seq<Event>)
    ensures w.taken <= Run(w, es).taken
    decreases |es|
  {
    if es != [] {
      var m := Run(w, es[..|es| - 1]);
      TakenRun(w, es[..|es| - 1]);
      if es[|es| - 1].BeginStops? {
        BeginAllIs(m, map[], es[|es| - 1].sessions);
      }
    }
  }

  /** A close claim that failed stays in the map, failed and with its folders,
      through every later event, so every later deletion of a root around one
      of them is refused. */
  lemma FailedCloseStaysForever(before: seq<Event>, after: seq<Event>, i: nat, canon: Canon, root: Path,
      own: Option<nat>)
    requires var w := Run(FRESH, before);
             i < |w.taken| && Out(w, w.taken[i].done).Failed?
    ensures var w := Run(FRESH, before);
            var v := Run(w, after);
            && WellFormed(v.table)
            && Close(i) in v.table.claims && v.table.claims[Close(i)].paths == w.taken[i].paths
            && OutcomeOf(v.table, Close(i)) == Out(w, w.taken[i].done)
            && (Within(canon, w.taken[i].paths, root) ==> !Passes(v.table, canon, root, own))
  {
    var w := Reachable(before);
    assert CloseOk(w, i);
    RunKeeps(w, after);
    InvIsWellFormed(Run(w, after));
    TakenRun(w, after);
    FailureRun(w, after, w.taken[i].done);
    assert CloseOk(Run(w, after), i);
  }

  // ------------------------------------------------------------ the deletion

  /** Nothing may still run inside `root`: every close claim ever taken there,
      other than the caller's own, reported stopped and never failed, and
      every thread whose latest stop was begun there settled it cleanly. */
  ghost predicate Quiet(w: World, canon: Canon, root: Path, own: Option<nat>) {
    && (forall i: nat :: i < |w.taken| && Within(canon, w.taken[i].paths, root) && own != Some(i) ==>
          Out(w, w.taken[i].done).Stopped?)
    && (forall t :: t in w.latest && Within(canon, w.latest[t].paths, root) ==> Out(w, w.latest[t].done).Stopped?)
  }

  lemma PassesIffQuiet(w: World, canon: Canon, root: Path, own: Option<nat>)
    requires Inv(w) && WellFormed(w.table) && (own.Some? ==> own.value in w.closes)
    ensures Passes(w.table, canon, root, own) <==> Quiet(w, canon, root, own)
  {
    if Passes(w.table, canon, root, own) {
      forall i: nat | i < |w.taken| && Within(canon, w.taken[i].paths, root) && own != Some(i)
        ensures Out(w, w.taken[i].done).Stopped?
      {
        assert CloseOk(w, i);
        if Close(i) in w.table.claims {
          assert OutcomeOf(w.table, Close(i)) == Out(w, w.taken[i].done);
        }
      }
      forall t | t in w.latest && Within(canon, w.latest[t].paths, root)
        ensures Out(w, w.latest[t].done).Stopped?
      {
        assert StopOk(w, t);
        if Stop(t) in w.table.claims {
          assert OutcomeOf(w.table, Stop(t)) == Out(w, w.latest[t].done);
        }
      }
    }
    if Quiet(w, canon, root, own) {
      forall key | key in w.table.claims && Within(canon, w.table.claims[key].paths, root)
        ensures OutcomeOf(w.table, key).Stopped? || (IsOwn(key, own) && !OutcomeOf(w.table, key).Failed?)
      {
        match key
        case Close(i) => assert CloseOk(w, i);
        case Stop(t) => assert StopOk(w, t);
      }
    }
  }

  /** The deletion gate, exactly: for every interleaving and every caller that
      holds its own live claim, it passes if and only if nothing may still run
      inside the root. */
  lemma DeletionGateIsExact(es: seq<Event>, canon: Canon, root: Path, own: Option<nat>)
    requires own.Some? ==> own.value in Run(FRESH, es).closes
    ensures WellFormed(Run(FRESH, es).table)
    ensures Passes(Run(FRESH, es).table, canon, root, own) <==> Quiet(Run(FRESH, es), canon, root, own)
  {
    var w := Reachable(es);
    PassesIffQuiet(w, canon, root, own);
  }

  /** The event fails the claim that reads channel `c`: a close reported as
      failed, even after it stopped, a close handle dropped before it settled,
      or a stop settled as failed. */
  predicate Fails(w: World, e: Event, c: Chan) {
    && Enabled(w, e)
    && match e
       case ReportFailed(id, _) => w.closes[id] == c
       case DropClaim(id) => w.closes[id] == c && Out(w, c).Unset?
       case Settle(sender, outcome) => sender.done == c && outcome.Failed?
       case _ => false
  }

  /** Some event of `es` fails a claim inside `root` that is still in the map
      at the end, not replaced by a newer one of its thread. */
  ghost predicate FailureSlipsIn(w: World, es: seq<Event>, canon: Canon, root: Path) {
    var t := Run(w, es).table;
    exists k, key :: && key in t.claims && Within(canon, t.claims[key].paths, root)
                     && FailsAt(w, es, k, t.claims[key].result)
  }

  ghost predicate FailsAt(w: World, es: seq<Event>, k: int, c: Chan) {
    0 <= k < |es| && Fails(Run(w, es[..k]), es[k], c)
  }

  lemma FailsAtPrefix(w: World, es: seq<Event>, k: int, c: Chan)
    requires es != []
    ensures FailsAt(w, es, k, c) <==>
            FailsAt(w, es[..|es| - 1], k, c) || (k == |es| - 1 && Fails(Run(w, es[..|es| - 1]), es[|es| - 1], c))
  {
    if 0 <= k < |es| - 1 {
      assert es[..|es| - 1][..k] == es[..k];
    }
  }

  lemma FailureStep(w: World, e: Event, c: Chan)
    requires Inv(w) && !Out(w, c).Failed?
    ensures Out(Next(w, e), c).Failed? <==> Fails(w, e, c)
  {
    if Enabled(w, e) {
      match e
      case BeginStops(sessions) =>
        BeginAllIs(w, map[], sessions);
        BegunAddsUnset(w.table, sessions);
      case Settle(sender, outcome) => assert SenderOk(w, sender);
      case TakeClaim(_) =>
      case Sweep(_) =>
      case _ => assert CloseOk(w, e.id);
    }
  }

  lemma {:induction false} BegunAddsUnset(t: Table, sessions: seq<Session>)
    ensures t.outcomes <= Begun(t, sessions).outcomes
    ensures forall c :: |t.outcomes| <= c < |Begun(t, sessions).outcomes| ==> Begun(t, sessions).outcomes[c].Unset?
    decreases |sessions|
  {
    if sessions != [] {
      var s := sessions[0];
      BegunAddsUnset(Table(t.claims[Stop(s.thread) := Claim(s.workspaceId, Folders(s.cwd), |t.outcomes|)],
                           t.outcomes + [Unset], t.nextClose), sessions[1..]);
    }
  }

  /** Every failure of a run has its event, and no event's failure is undone. */
  lemma {:induction false} FailureHasItsEvent(w: World, es: seq<Event>, c: Chan)
    requires Inv(w) && !Out(w, c).Failed?
    ensures Out(Run(w, es), c).Failed? <==> exists k :: FailsAt(w, es, k, c)
    decreases |es|
  {
    if es != [] {
      var before, e := es[..|es| - 1], es[|es| - 1];
      var m := Run(w, before);
      FailureHasItsEvent(w, before, c);
      RunKeeps(w, before);
      forall k ensures FailsAt(w, es, k, c) <==> FailsAt(w, before, k, c) || (k == |es| - 1 && Fails(m, e, c)) {
        FailsAtPrefix(w, es, k, c);
      }
      if Out(m, c).Failed? {
        OutcomeStep(m, e, c);
      } else {
        FailureStep(m, e, c);
        assert FailsAt(w, es, |es| - 1, c) <==> Fails(m, e, c);
      }
    }
  }

  /** A claim that reads an old channel has been in the map all along. */
  ghost predicate KeepsOldClaims(t: Table, u: Table) {
    && |t.outcomes| <= |u.outcomes|
    && forall key :: key in u.claims && u.claims[key].result < |t.outcomes| ==>
         key in t.claims && t.claims[key] == u.claims[key]
  }

  lemma {:induction false} BegunKeepsOldClaims(t: Table, sessions: seq<Session>)
    ensures KeepsOldClaims(t, Begun(t, sessions))
    decreases |sessions|
  {
    if sessions != [] {
      var s := sessions[0];
      BegunKeepsOldClaims(Table(t.claims[Stop(s.thread) := Claim(s.workspaceId, Folders(s.cwd), |t.outcomes|)],
                                t.outcomes + [Unset], t.nextClose), sessions[1..]);
    }
  }

  lemma StepKeepsOldClaims(w: World, e: Event)
    ensures KeepsOldClaims(w.table, Next(w, e).table)
  {
    if e.BeginStops? {
      BeginAllIs(w, map[], e.sessions);
      BegunKeepsOldClaims(w.table, e.sessions);
    }
  }

  lemma OldClaimsTransitive(t: Table, u: Table, v: Table)
    requires KeepsOldClaims(t, u) && KeepsOldClaims(u, v)
    ensures KeepsOldClaims(t, v)
  {
  }

  lemma {:induction false} RunKeepsOldClaims(w: World, es: seq<Event>)
    ensures KeepsOldClaims(w.table, Run(w, es).table)
    decreases |es|
  {
    if es != [] {
      var m, e := Run(w, es[..|es| - 1]), es[|es| - 1];
      RunKeepsOldClaims(w, es[..|es| - 1]);
      StepKeepsOldClaims(m, e);
      OldClaimsTransitive(w.table, m.table, Next(m, e).table);
    }
  }

  /** The program takes the map's lock once per scan. When events come between
      the scans and both pass, the root is quiet at the second one if and only
      if none of these events failed a claim inside the root that is still in
      the map. */
  lemma TwoScansAreExact(es: seq<Event>, between: seq<Event>, canon: Canon, root: Path, own: Option<nat>)
    requires own.Some? ==> own.value in Run(Run(FRESH, es), between).closes
    requires WellFormed(Run(FRESH, es).table) && WellFormed(Run(Run(FRESH, es), between).table)
    requires NoneFailedIn(Run(FRESH, es).table, canon, root)
    requires NoneStoppingIn(Run(Run(FRESH, es), between).table, canon, root, own)
    ensures Quiet(Run(Run(FRESH, es), between), canon, root, own) <==>
            !FailureSlipsIn(Run(FRESH, es), between, canon, root)
  {
    var w := Reachable(es);
    RunKeeps(w, between);
    var v := Run(w, between);
    PassesIffQuiet(v, canon, root, own);
    RunKeepsOldClaims(w, between);
    forall key | key in v.table.claims && Within(canon, v.table.claims[key].paths, root)
      ensures OutcomeOf(v.table, key).Failed? <==>
              exists k :: FailsAt(w, between, k, v.table.claims[key].result)
    {
      var c := v.table.claims[key].result;
      assert c < |w.table.outcomes| ==> OutcomeOf(w.table, key) == Out(w, c);
      FailureHasItsEvent(w, between, c);
    }
  }

  /** Such events exist: a stop inside the root is unsettled at the first scan
      and failed at the second, and both scans pass. */
  lemma StopFailingBetweenScansIsMissed(canon: Canon, root: Path)
    ensures exists es, between ::
              var w := Run(FRESH, es);
              var v := Run(w, between);
              && WellFormed(w.table) && WellFormed(v.table)
              && NoneFailedIn(w.table, canon, root) && NoneStoppingIn(v.table, canon, root, None)
              && !Quiet(v, canon, root, None)
  {
    var sessions := [Session("thread", None, Some(root))];
    var es := [BeginStops(sessions)];
    var between := [Settle(Sender("thread", 0), Failed("no"))];
    var w := BeginTheOne(sessions[0], es);
    var v := FailTheOne(w, root, between);
    assert Within(canon, [root], root) by { assert PathWithin(canon, [root][0], root); }
    assert "thread" in v.latest;
    assert NoneFailedIn(w.table, canon, root) && NoneStoppingIn(v.table, canon, root, None);
    assert !Quiet(v, canon, root, None);
  }

  ghost predicate OneStop(w: World, s: Session, outcome: Outcome) {
    && w.table == Table(map[Stop(s.thread) := Claim(s.workspaceId, Folders(s.cwd), 0)], [outcome], 0)
    && w.latest == map[s.thread := BegunStop(s.workspaceId, Folders(s.cwd), 0)]
  }

  lemma BeginTheOne(s: Session, es: seq<Event>) returns (w: World)
    requires es == [BeginStops([s])]
    ensures w == Run(FRESH, es) && OneStop(w, s, Unset) && Sender(s.thread, 0) in w.senders && WellFormed(w.table)
  {
    w := Run(FRESH, es);
    assert es[..0] == [] && Run(FRESH, []) == FRESH;
    var one := BeginOne(FRESH, s);
    assert [s][1..] == [];
    assert BeginAll(one, map[s.thread := 0], []) == one.(senders := one.senders + Pairs(map[s.thread := 0]));
    assert s.thread in map[s.thread := 0];
  }

  lemma FailTheOne(w: World, root: Path, es: seq<Event>) returns (v: World)
    requires OneStop(w, Session("thread", None, Some(root)), Unset) && Sender("thread", 0) in w.senders
    requires es == [Settle(Sender("thread", 0), Failed("no"))]
    ensures v == Run(w, es) && OneStop(v, Session("thread", None, Some(root)), Failed("no")) && WellFormed(v.table)
  {
    v := Run(w, es);
    assert es[..0] == [] && Run(w, []) == w;
  }

  // ---------------------------------------------------------- stops and claims

  /** "Still stopping" can always resolve: an entry without an outcome has a
      live handle or batch, and dropping that settles it. */
  lemma UnsettledHasALiveHandle(es: seq<Event>, key: Key)
    requires var w := Run(FRESH, es);
             key in w.table.claims && Out(w, w.table.claims[key].result).Unset?
    ensures var w := Run(FRESH, es);
            var done := w.table.claims[key].result;
            match key
            case Close(i) => i in w.closes && w.closes[i] == done && Out(Next(w, DropClaim(i)), done).Failed?
            case Stop(t) =>
              && Sender(t, done) in w.senders
              && Out(Next(w, Settle(Sender(t, done), Failed(STOP_ENDED))), done).Failed?
  {
    var w := Reachable(es);
    match key
    case Close(i) => assert CloseOk(w, i);
    case Stop(t) => assert StopOk(w, t);
  }

  /** Settling a superseded stop, and its later look at the map, neither
      remove nor change any claim of the same thread, nor its outcome. */
  lemma SupersededSettleIsHarmless(es: seq<Event>, sender: Sender, outcome: Outcome)
    requires var w := Run(FRESH, es);
             sender.thread in w.latest && w.latest[sender.thread].done != sender.done
    ensures var w := Run(FRESH, es);
            forall e | e == Settle(sender, outcome) || e == Sweep(sender) ::
              && Next(w, e).table.claims == w.table.claims
              && Out(Next(w, e), w.latest[sender.thread].done) == Out(w, w.latest[sender.thread].done)
  {
    var w := Reachable(es);
    assert StopOk(w, sender.thread);
  }

  /** Once a thread's latest stop has settled and looked at the map: a clean
      stop leaves no claim, and a failed one leaves its claim exactly when it
      has a folder or a workspace. */
  lemma SettledStopKeptExactly(es: seq<Event>, t: string)
    requires var w := Run(FRESH, es);
             t in w.latest && !Out(w, w.latest[t].done).Unset? && Sender(t, w.latest[t].done) !in w.settling
    ensures var w := Run(FRESH, es);
            Stop(t) in w.table.claims <==>
              Out(w, w.latest[t].done).Failed? && (w.latest[t].paths != [] || w.latest[t].workspaceId.Some?)
  {
    var w := Reachable(es);
    assert StopOk(w, t);
  }

  // ------------------------------------------------------------------ waiting

  /** The event puts no new claim inside `root`, and does not fail a claim
      that already reported stopped. */
  ghost predicate Undisturbed(w: World, e: Event, canon: Canon, root: Path) {
    && (e.TakeClaim? ==> !Within(canon, e.paths, root))
    && (e.BeginStops? ==> forall i :: 0 <= i < |e.sessions| ==> !Within(canon, Folders(e.sessions[i].cwd), root))
    && (e.ReportFailed? && e.id in w.closes ==> !Out(w, w.closes[e.id]).Stopped?)
  }

  ghost predicate UndisturbedRun(w: World, es: seq<Event>, canon: Canon, root: Path) {
    forall k :: 0 <= k < |es| ==> Undisturbed(Run(w, es[..k]), es[k], canon, root)
  }

  /** Every claim inside `root` is one of the earlier table's. */
  ghost predicate NoNewIn(t: Table, u: Table, canon: Canon, root: Path) {
    forall key :: key in u.claims && Within(canon, u.claims[key].paths, root) ==>
      key in t.claims && t.claims[key] == u.claims[key]
  }

  lemma {:induction false} BegunElsewhere(t: Table, sessions: seq<Session>, canon: Canon, root: Path)
    requires forall i :: 0 <= i < |sessions| ==> !Within(canon, Folders(sessions[i].cwd), root)
    ensures NoNewIn(t, Begun(t, sessions), canon, root)
    decreases |sessions|
  {
    if sessions != [] {
      var s := sessions[0];
      var u := Table(t.claims[Stop(s.thread) := Claim(s.workspaceId, Folders(s.cwd), |t.outcomes|)],
                     t.outcomes + [Unset], t.nextClose);
      assert forall i :: 0 <= i < |sessions[1..]| ==> sessions[1..][i] == sessions[i + 1];
      BegunElsewhere(u, sessions[1..], canon, root);
    }
  }

  lemma UndisturbedStep(w: World, e: Event, canon: Canon, root: Path)
    requires Inv(w) && Undisturbed(w, e, canon, root)
    ensures NoNewIn(w.table, Next(w, e).table, canon, root)
    ensures forall c :: 0 <= c < |w.table.outcomes| && Out(w, c).Stopped? ==> Out(Next(w, e), c).Stopped?
  {
    if e.BeginStops? {
      BeginAllIs(w, map[], e.sessions);
      BegunElsewhere(w.table, e.sessions, canon, root);
    }
    forall c | 0 <= c < |w.table.outcomes| && Out(w, c).Stopped? ensures Out(Next(w, e), c).Stopped? {
      OutcomeStep(w, e, c);
    }
  }

  lemma {:induction false} UndisturbedNoNew(w: World, es: seq<Event>, canon: Canon, root: Path)
    requires Inv(w) && UndisturbedRun(w, es, canon, root)
    ensures NoNewIn(w.table, Run(w, es).table, canon, root)
    decreases |es|
  {
    if es != [] {
      var last := |es| - 1;
      assert forall k :: 0 <= k < last ==> es[..last][..k] == es[..k];
      UndisturbedNoNew(w, es[..last], canon, root);
      RunKeeps(w, es[..last]);
      UndisturbedStep(Run(w, es[..last]), es[last], canon, root);
    }
  }

  /** The run without its last event. */
  lemma UndisturbedPrefix(w: World, es: seq<Event>, canon: Canon, root: Path)
    requires es != [] && UndisturbedRun(w, es, canon, root)
    ensures var last := |es| - 1;
            UndisturbedRun(w, es[..last], canon, root) && Undisturbed(Run(w, es[..last]), es[last], canon, root)
  {
    assert forall j :: 0 <= j < |es| - 1 ==> es[..|es| - 1][..j] == es[..j];
  }

  lemma {:induction false} StoppedStays(w: World, es: seq<Event>, k: nat, c: Chan, canon: Canon, root: Path)
    requires Inv(w) && UndisturbedRun(w, es, canon, root)
    requires k <= |es| && Out(Run(w, es[..k]), c).Stopped?
    ensures Out(Run(w, es), c).Stopped?
    decreases |es|
  {
    if k < |es| {
      var before, e := es[..|es| - 1], es[|es| - 1];
      UndisturbedPrefix(w, es, canon, root);
      assert before[..k] == es[..k];
      StoppedStays(w, before, k, c, canon, root);
      RunKeeps(w, before);
      UndisturbedStep(Run(w, before), e, canon, root);
    } else {
      assert es[..k] == es;
    }
  }

  /** `WaitFor` saw each of `stops` report stopped at some moment of `es`. */
  ghost predicate SawStopped(w: World, es: seq<Event>, stops: set<Chan>) {
    forall c :: c in stops ==> exists k :: 0 <= k <= |es| && Out(Run(w, es[..k]), c).Stopped?
  }

  lemma {:induction false} WaitedClaimIsSettled(w: World, es: seq<Event>, canon: Canon, root: Path, own: Option<nat>,
      key: Key)
    requires Inv(w) && UndisturbedRun(w, es, canon, root)
    requires SawStopped(w, es, ClaimsIn(w.table, canon, root, own))
    requires var v := Run(w, es);
             key in v.table.claims && !IsOwn(key, own) && Within(canon, v.table.claims[key].paths, root)
    ensures Out(Run(w, es), Run(w, es).table.claims[key].result).Stopped?
  {
    var c := Run(w, es).table.claims[key].result;
    UndisturbedNoNew(w, es, canon, root);
    assert w.table.claims[key].result in ClaimsIn(w.table, canon, root, own);
    var k :| 0 <= k <= |es| && Out(Run(w, es[..k]), c).Stopped?;
    StoppedStays(w, es, k, c, canon, root);
  }

  /** A deletion that waits for the claims inside its root, each of which it
      saw report stopped at some moment of the wait, passes the gate at the
      end, if nothing new was claimed inside the root and nothing failed after
      having stopped. */
  lemma {:induction false} WaitingOpensTheGate(before: seq<Event>, es: seq<Event>, canon: Canon, root: Path,
      own: Option<nat>)
    requires own.Some? ==> own.value in Run(Run(FRESH, before), es).closes
    requires UndisturbedRun(Run(FRESH, before), es, canon, root)
    requires SawStopped(Run(FRESH, before), es, ClaimsIn(Run(FRESH, before).table, canon, root, own))
    ensures WellFormed(Run(Run(FRESH, before), es).table)
    ensures Passes(Run(Run(FRESH, before), es).table, canon, root, own)
  {
    var w := Reachable(before);
    RunKeeps(w, es);
    var v := Run(w, es);
    InvIsWellFormed(v);
    forall key | key in v.table.claims && Within(canon, v.table.claims[key].paths, root)
      ensures !OutcomeOf(v.table, key).Failed? && (IsOwn(key, own) || !OutcomeOf(v.table, key).Unset?)
    {
      if IsOwn(key, own) {
        assert CloseOk(v, own.value);
      } else {
        WaitedClaimIsSettled(w, es, canon, root, own, key);
      }
    }
  }
}
