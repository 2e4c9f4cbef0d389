/** The deletion gate in terms of folders and of the events of each claim. */
module ClaimFolders {
  import opened Basics
  import opened Paths
  import opened CheckoutClaims
  import opened ClaimRuns
  import opened ClaimGates

  // ----------------------------------------------------------------- folders

  /** A path that has all the components of `root` in front. */
  predicate Inside(path: Path, root: Path) {
    |root| <= |path| && forall k :: 0 <= k < |root| ==> path[k] == root[k]
  }

  /** So written, or so once both are resolved. */
  predicate InsideOf(canon: Canon, path: Path, root: Path) {
    || Inside(path, root)
    || (canon(path).Some? && canon(root).Some? && Inside(canon(path).value, canon(root).value))
  }

  lemma WithinIsInside(canon: Canon, paths: seq<Path>, root: Path)
    ensures Within(canon, paths, root) <==> exists j :: 0 <= j < |paths| && InsideOf(canon, paths[j], root)
  {
    forall j | 0 <= j < |paths| ensures PathWithin(canon, paths[j], root) <==> InsideOf(canon, paths[j], root) {}
  }

  /** Inside is the root itself and whatever lies below it. */
  lemma InsideIsBelow(path: Path, root: Path)
    ensures Inside(path, root) <==> exists rest :: path == root + rest
    ensures Inside(path, root) <==> !Outside(path, root)
  {
    if Inside(path, root) {
      assert path == root + path[|root|..];
    }
  }

  lemma TableBlocks(t: Table, key: Key, j: nat, canon: Canon, root: Path, own: Option<nat>)
    requires WellFormed(t) && key in t.claims
    requires j < |t.claims[key].paths| && InsideOf(canon, t.claims[key].paths[j], root)
    ensures HeldIn(t, canon, root)
    ensures OutcomeOf(t, key).Failed? ==> !Passes(t, canon, root, own)
    ensures own.None? || key != Close(own.value) ==>
              && t.claims[key].result in ClaimsIn(t, canon, root, own)
              && (OutcomeOf(t, key).Unset? ==> !Passes(t, canon, root, own))
  {
    WithinIsInside(canon, t.claims[key].paths, root);
  }

  /** The gate exactly, folder by folder: it passes if and only if no claim with
      a folder inside the root has failed, and none but the caller's is still
      unsettled. */
  lemma GateByFolders(t: Table, canon: Canon, root: Path, own: Option<nat>)
    requires WellFormed(t)
    ensures Passes(t, canon, root, own) <==>
            forall key, j :: key in t.claims && 0 <= j < |t.claims[key].paths|
                             && InsideOf(canon, t.claims[key].paths[j], root) ==>
              OutcomeOf(t, key).Stopped? || (OutcomeOf(t, key).Unset? && own.Some? && key == Close(own.value))
    ensures HeldIn(t, canon, root) <==>
            exists key, j :: key in t.claims && 0 <= j < |t.claims[key].paths|
                             && InsideOf(canon, t.claims[key].paths[j], root)
    ensures forall c :: c in ClaimsIn(t, canon, root, own) <==>
            exists key, j :: key in t.claims && t.claims[key].result == c && !(own.Some? && key == Close(own.value))
                             && 0 <= j < |t.claims[key].paths| && InsideOf(canon, t.claims[key].paths[j], root)
  {
    forall key | key in t.claims
      ensures Within(canon, t.claims[key].paths, root) <==>
              exists j :: 0 <= j < |t.claims[key].paths| && InsideOf(canon, t.claims[key].paths[j], root)
    {
      WithinIsInside(canon, t.claims[key].paths, root);
    }
  }

  // ------------------------------------------------------- one claim's own events

  /** What its own handle has done to a close claim. */
  datatype Fate = Unsettled | StoppedHeld | StoppedFreed | FailedFreed

  function FateStep(fate: Fate, e: Event, id: nat): Fate {
    match fate
    case Unsettled =>
      if e == ReportStopped(id) then StoppedHeld
      else if e == Release(id) then StoppedFreed
      else if e == DropClaim(id) || (e.ReportFailed? && e.id == id) then FailedFreed
      else fate
    case StoppedHeld =>
      if e == Release(id) || e == DropClaim(id) then StoppedFreed
      else if e.ReportFailed? && e.id == id then FailedFreed
      else fate
    case _ => fate
  }

  function FateOf(es: seq<Event>, id: nat): Fate
    decreases |es|
  {
    if es == [] then Unsettled else FateStep(FateOf(es[..|es| - 1], id), es[|es| - 1], id)
  }

  ghost predicate HasFate(w: World, id: nat, paths: seq<Path>, fate: Fate) {
    && id < |w.taken| && w.taken[id].paths == paths
    && (id in w.closes <==> fate.Unsettled? || fate.StoppedHeld?)
    && (fate.Unsettled? <==> Out(w, w.taken[id].done).Unset?)
    && (fate.FailedFreed? <==> Out(w, w.taken[id].done).Failed?)
  }

  lemma FateIsKept(w: World, e: Event, id: nat, paths: seq<Path>, fate: Fate)
    requires Inv(w) && HasFate(w, id, paths, fate)
    ensures HasFate(Next(w, e), id, paths, FateStep(fate, e, id))
  {
    assert CloseOk(w, id);
    if Enabled(w, e) {
      match e
      case BeginStops(sessions) =>
        BeginAllIs(w, map[], sessions);
        BegunAddsUnset(w.table, sessions);
      case Settle(sender, outcome) => assert SenderOk(w, sender);
      case TakeClaim(_) =>
      case Sweep(_) =>
      case _ => FateOnClose(w, e, id, paths, fate);
    }
  }

  lemma FateOnClose(w: World, e: Event, id: nat, paths: seq<Path>, fate: Fate)
    requires Inv(w) && HasFate(w, id, paths, fate) && IsClose(e) && Enabled(w, e)
    ensures HasFate(Next(w, e), id, paths, FateStep(fate, e, id))
  {
    assert CloseOk(w, id) && CloseOk(w, e.id);
  }

  /** Whatever else happens, a close claim's folders and outcome are those that
      its own events give it. */
  lemma {:induction false} FateOfTaken(before: seq<Event>, paths: seq<Path>, after: seq<Event>)
    ensures var w := Run(FRESH, before);
            var v := Run(Next(w, TakeClaim(paths)), after);
            Inv(v) && HasFate(v, |w.taken|, paths, FateOf(after, |w.taken|))
    decreases |after|
  {
    var w := Reachable(before);
    var taken := Next(w, TakeClaim(paths));
    NextKeeps(w, TakeClaim(paths));
    if after == [] {
      assert |w.taken| !in w.closes;
    } else {
      var prefix := after[..|after| - 1];
      FateOfTaken(before, paths, prefix);
      RunKeeps(taken, after);
      FateIsKept(Run(taken, prefix), after[|after| - 1], |w.taken|, paths, FateOf(prefix, |w.taken|));
    }
  }

  /** From the moment a claim on any folder inside the root is taken, every
      deletion of the root by anybody else is refused, and the root counts as
      held, until the claim's own handle reports a clean stop or is released;
      once it failed, forever. */
  lemma ClaimedFolderBlocksDeletion(before: seq<Event>, paths: seq<Path>, after: seq<Event>, j: nat,
                                    canon: Canon, root: Path, own: Option<nat>)
    requires j < |paths| && InsideOf(canon, paths[j], root)
    ensures var w := Run(FRESH, before);
            var v := Run(Next(w, TakeClaim(paths)), after);
            var fate := FateOf(after, |w.taken|);
            && WellFormed(v.table) && |w.taken| < |v.taken|
            && (fate.Unsettled? && own != Some(|w.taken|) ==> !Passes(v.table, canon, root, own))
            && (fate.FailedFreed? ==> !Passes(v.table, canon, root, own))
            && (!fate.StoppedFreed? ==> HeldIn(v.table, canon, root))
            && (fate.Unsettled? && own != Some(|w.taken|) ==>
                  v.taken[|w.taken|].done in ClaimsIn(v.table, canon, root, own))
  {
    var w := Run(FRESH, before);
    var id := |w.taken|;
    var v := Run(Next(w, TakeClaim(paths)), after);
    FateOfTaken(before, paths, after);
    InvIsWellFormed(v);
    assert CloseOk(v, id);
    if !FateOf(after, id).StoppedFreed? {
      TableBlocks(v.table, Close(id), j, canon, root, own);
    }
  }

  // -------------------------------------------------------------------- stops

  lemma {:induction false} BegunInOrder(w: World, batch: map<string, Chan>, sessions: seq<Session>, i: nat)
    requires i < |sessions| && forall k :: i < k < |sessions| ==> sessions[k].thread != sessions[i].thread
    ensures var v := BeginAll(w, batch, sessions);
            var s := sessions[i];
            && s.thread in v.latest
            && v.latest[s.thread] ==
                 BegunStop(s.workspaceId, if s.cwd.Some? then [s.cwd.value] else [], |w.table.outcomes| + i)
    decreases |sessions|
  {
    var one := BeginOne(w, sessions[0]);
    var more := batch[sessions[0].thread := |w.table.outcomes|];
    assert forall k :: 0 <= k < |sessions| - 1 ==> sessions[1..][k] == sessions[k + 1];
    if i > 0 {
      BegunInOrder(one, more, sessions[1..], i - 1);
    } else {
      OthersKeepTheStop(one, more, sessions[1..], sessions[0].thread);
    }
  }

  lemma {:induction false} OthersKeepTheStop(w: World, batch: map<string, Chan>, sessions: seq<Session>, thread: string)
    requires thread in w.latest && forall k :: 0 <= k < |sessions| ==> sessions[k].thread != thread
    ensures var v := BeginAll(w, batch, sessions);
            thread in v.latest && v.latest[thread] == w.latest[thread]
    decreases |sessions|
  {
    if sessions != [] {
      assert sessions[0].thread != thread;
      assert forall k :: 0 <= k < |sessions| - 1 ==> sessions[1..][k] == sessions[k + 1];
      var more := batch[sessions[0].thread := |w.table.outcomes|];
      OthersKeepTheStop(BeginOne(w, sessions[0]), more, sessions[1..], thread);
    }
  }

  /** The event begins no newer stop of the thread and settles none of its as
      clean. */
  ghost predicate LeavesTheStop(e: Event, thread: string) {
    && (e.BeginStops? ==> forall k :: 0 <= k < |e.sessions| ==> e.sessions[k].thread != thread)
    && !(e.Settle? && e.sender.thread == thread && e.outcome.Stopped?)
  }

  ghost predicate StopIs(w: World, thread: string, stop: BegunStop) {
    thread in w.latest && w.latest[thread] == stop && stop.done < |w.table.outcomes| && !Out(w, stop.done).Stopped?
  }

  lemma StopIsKept(w: World, e: Event, thread: string, stop: BegunStop)
    requires Inv(w) && StopIs(w, thread, stop) && LeavesTheStop(e, thread)
    ensures StopIs(Next(w, e), thread, stop)
  {
    assert StopOk(w, thread);
    if Enabled(w, e) {
      match e
      case BeginStops(sessions) =>
        BeginAllIs(w, map[], sessions);
        BegunKeepsOutcomes(w.table, sessions);
        OthersKeepTheStop(w, map[], sessions, thread);
      case Settle(sender, outcome) => assert SenderOk(w, sender);
      case TakeClaim(_) =>
      case Sweep(_) =>
      case _ => assert CloseOk(w, e.id);
    }
  }

  lemma {:induction false} StopStays(w: World, es: seq<Event>, thread: string, stop: BegunStop)
    requires Inv(w) && StopIs(w, thread, stop) && forall k :: 0 <= k < |es| ==> LeavesTheStop(es[k], thread)
    ensures Inv(Run(w, es)) && StopIs(Run(w, es), thread, stop)
    decreases |es|
  {
    RunKeeps(w, es);
    if es != [] {
      var prefix := es[..|es| - 1];
      StopStays(w, prefix, thread, stop);
      StopIsKept(Run(w, prefix), es[|es| - 1], thread, stop);
    }
  }

  lemma JustBegun(w: World, sessions: seq<Session>, i: nat) returns (stop: BegunStop)
    requires Inv(w) && i < |sessions| && sessions[i].cwd.Some?
    requires forall k :: i < k < |sessions| ==> sessions[k].thread != sessions[i].thread
    ensures stop == BegunStop(sessions[i].workspaceId, [sessions[i].cwd.value], |w.table.outcomes| + i)
    ensures Inv(Next(w, BeginStops(sessions))) && StopIs(Next(w, BeginStops(sessions)), sessions[i].thread, stop)
  {
    NextKeeps(w, BeginStops(sessions));
    BegunInOrder(w, map[], sessions, i);
    BeginAllIs(w, map[], sessions);
    BegunAddsUnset(w.table, sessions);
    BegunCount(w.table, sessions);
    stop := Next(w, BeginStops(sessions)).latest[sessions[i].thread];
  }

  /** From the moment a stop is begun in a folder inside the root, every deletion
      of the root is refused and the root counts as held, until that stop
      settles cleanly or a newer one of its thread is begun. */
  lemma BegunStopBlocksDeletion(before: seq<Event>, sessions: seq<Session>, i: nat, after: seq<Event>,
                                canon: Canon, root: Path, own: Option<nat>)
    requires i < |sessions| && sessions[i].cwd.Some? && InsideOf(canon, sessions[i].cwd.value, root)
    requires forall k :: i < k < |sessions| ==> sessions[k].thread != sessions[i].thread
    requires forall k :: 0 <= k < |after| ==> LeavesTheStop(after[k], sessions[i].thread)
    ensures var v := Run(Next(Run(FRESH, before), BeginStops(sessions)), after);
            WellFormed(v.table) && !Passes(v.table, canon, root, own) && HeldIn(v.table, canon, root)
  {
    var w := Reachable(before);
    var s := sessions[i];
    var begun := Next(w, BeginStops(sessions));
    var stop := JustBegun(w, sessions, i);
    StopStays(begun, after, s.thread, stop);
    var v := Run(begun, after);
    InvIsWellFormed(v);
    assert StopOk(v, s.thread);
    TableBlocks(v.table, Stop(s.thread), 0, canon, root, own);
  }

  lemma {:induction false} BegunCount(t: Table, sessions: seq<Session>)
    ensures |Begun(t, sessions).outcomes| == |t.outcomes| + |sessions|
    decreases |sessions|
  {
    if sessions != [] {
      var s := sessions[0];
      BegunCount(Table(t.claims[Stop(s.thread) := Claim(s.workspaceId, Folders(s.cwd), |t.outcomes|)],
                       t.outcomes + [Unset], t.nextClose), sessions[1..]);
    }
  }

  // -------------------------------------------------------- outside the root

  /** Shorter than the root, or different from it in some component. */
  predicate Outside(path: Path, root: Path) {
    |path| < |root| || exists k :: 0 <= k < |root| && path[k] != root[k]
  }

  /** Where paths resolve to themselves, claims on folders outside the root,
      and the caller's own, keep nobody from deleting it. */
  lemma OutsideDoesNotMatter(es: seq<Event>, canon: Canon, root: Path, own: Option<nat>)
    requires forall p :: canon(p) == Some(p)
    requires own.Some? ==> own.value in Run(FRESH, es).closes
    requires var w := Run(FRESH, es);
             && (forall i, j :: 0 <= i < |w.taken| && own != Some(i) && 0 <= j < |w.taken[i].paths| ==>
                   Outside(w.taken[i].paths[j], root))
             && (forall t, j :: t in w.latest && 0 <= j < |w.latest[t].paths| ==> Outside(w.latest[t].paths[j], root))
    ensures WellFormed(Run(FRESH, es).table) && Passes(Run(FRESH, es).table, canon, root, own)
    ensures ClaimsIn(Run(FRESH, es).table, canon, root, own) == {}
    ensures own.None? ==> !HeldIn(Run(FRESH, es).table, canon, root)
  {
    var w := Reachable(es);
    InvIsWellFormed(w);
    forall key | key in w.table.claims && !IsOwn(key, own) ensures !Within(canon, w.table.claims[key].paths, root) {
      WithinIsInside(canon, w.table.claims[key].paths, root);
      match key
      case Close(i) => assert CloseOk(w, i);
      case Stop(t) => assert StopOk(w, t);
    }
    if own.Some? {
      assert CloseOk(w, own.value);
    }
  }
}
