/** The claim map over whole runs: claims taken, stopped, failed, released and
    dropped, stops begun and settled, in every interleaving. */
module ClaimRuns {
  import opened Basics
  import opened Paths
  import opened CheckoutClaims

  datatype TakenClose = TakenClose(paths: seq<Path>, done: Chan)
  datatype BegunStop = BegunStop(workspaceId: Option<string>, paths: seq<Path>, done: Chan)
  datatype Sender = Sender(thread: string, done: Chan)

  /** `closes` are the live close handles, `senders` the unsettled stops of
      all live batches, `settling` the stops that have reported but have not
      yet looked at the map. `taken`, `latest` and `owner` are histories:
      every close claim, each thread's last begun stop, and what every channel
      was made for. */
  datatype World = World(
    table: Table,
    closes: map<nat, Chan>,
    senders: set<Sender>,
    settling: set<Sender>,
    taken: seq<TakenClose>,
    latest: map<string, BegunStop>,
    owner: seq<Key>)

  const FRESH := World(Table(map[], [], 0), map[], {}, {}, [], map[], [])

  /** A batch that drops settles each of its remaining stops as failed, so
      its drop is a series of `Settle` and `Sweep` events. */
  datatype Event =
    | TakeClaim(paths: seq<Path>)
    | ReportStopped(id: nat)
    | ReportFailed(id: nat, error: string)
    | Release(id: nat)
    | DropClaim(id: nat)
    | BeginStops(sessions: seq<Session>)
    | Settle(sender: Sender, outcome: Outcome)
    | Sweep(sender: Sender)

  function Out(w: World, done: Chan): Outcome {
    if done < |w.table.outcomes| then w.table.outcomes[done] else Unset
  }

  predicate IsClose(e: Event) {
    e.ReportStopped? || e.ReportFailed? || e.Release? || e.DropClaim?
  }

  predicate Enabled(w: World, e: Event) {
    match e
    case TakeClaim(_) => true
    case BeginStops(_) => true
    case Settle(sender, outcome) => sender in w.senders && sender.done < |w.table.outcomes| && !outcome.Unset?
    case Sweep(sender) => sender in w.settling && sender.done < |w.table.outcomes|
    case _ => e.id in w.closes && w.closes[e.id] < |w.table.outcomes|
  }

  function Pairs(senders: map<string, Chan>): set<Sender> {
    set t | t in senders :: Sender(t, senders[t])
  }

  /** One session of `begin_stops`. */
  function BeginOne(w: World, s: Session): World {
    var done: Chan := |w.table.outcomes|;
    w.(table := Table(w.table.claims[Stop(s.thread) := Claim(s.workspaceId, Folders(s.cwd), done)],
                      w.table.outcomes + [Unset], w.table.nextClose),
       latest := w.latest[s.thread := BegunStop(s.workspaceId, Folders(s.cwd), done)],
       owner := w.owner + [Stop(s.thread)])
  }

  /** All sessions, under one lock. A thread listed twice keeps the later
      sender; the earlier one is dropped without an outcome. */
  function BeginAll(w: World, batch: map<string, Chan>, sessions: seq<Session>): World
    decreases |sessions|
  {
    if sessions == [] then w.(senders := w.senders + Pairs(batch))
    else
      BeginAll(BeginOne(w, sessions[0]), batch[sessions[0].thread := |w.table.outcomes|], sessions[1..])
  }

  function CloseStep(w: World, e: Event): World
    requires IsClose(e) && Enabled(w, e)
  {
    var t := w.table;
    var done := w.closes[e.id];
    match e
    case ReportStopped(id) => w.(table := SentIfUnset(t, done, Stopped))
    case ReportFailed(id, error) =>
      w.(table := HandleDropped(Sent(t, done, Failed(error)), id, done), closes := w.closes - {id})
    case Release(id) => w.(table := HandleDropped(SentIfUnset(t, done, Stopped), id, done), closes := w.closes - {id})
    case DropClaim(id) => w.(table := HandleDropped(t, id, done), closes := w.closes - {id})
  }

  function Step(w: World, e: Event): World
    requires Enabled(w, e)
  {
    match e
    case TakeClaim(paths) =>
      w.(table := Claimed(w.table, paths), closes := w.closes[w.table.nextClose := |w.table.outcomes|],
         taken := w.taken + [TakenClose(paths, |w.table.outcomes|)], owner := w.owner + [Close(w.table.nextClose)])
    case BeginStops(sessions) => BeginAll(w, map[], sessions)
    case Settle(sender, outcome) =>
      w.(table := Sent(w.table, sender.done, outcome),
         senders := w.senders - {sender}, settling := w.settling + {sender})
    case Sweep(sender) =>
      w.(table := Swept(w.table, sender.thread, sender.done), settling := w.settling - {sender})
    case _ => CloseStep(w, e)
  }

  /** An event that is not enabled changes nothing. */
  function Next(w: World, e: Event): World {
    if Enabled(w, e) then Step(w, e) else w
  }

  function Run(w: World, es: seq<Event>): World
    decreases |es|
  {
    if es == [] then w else Next(Run(w, es[..|es| - 1]), es[|es| - 1])
  }

  /** The batch and the map are those that the program's own loop builds. */
  lemma {:induction false} BeginAllIs(w: World, batch: map<string, Chan>, sessions: seq<Session>)
    ensures var v := BeginAll(w, batch, sessions);
            && v.table == Begun(w.table, sessions)
            && v.senders == w.senders + Pairs(Senders(batch, sessions, |w.table.outcomes|))
            && v.closes == w.closes && v.taken == w.taken && v.settling == w.settling
    decreases |sessions|
  {
    if sessions != [] {
      BeginAllIs(BeginOne(w, sessions[0]), batch[sessions[0].thread := |w.table.outcomes|], sessions[1..]);
    }
  }

  // -------------------------------------------------------------- invariant

  ghost predicate Owns(w: World, done: Chan, key: Key) {
    done < |w.owner| && w.owner[done] == key
  }

  /** A close claim stays in the map until it stopped and its handle is gone. */
  ghost predicate CloseOk(w: World, i: nat) {
    i < |w.taken| ==>
      var claim := w.taken[i];
      && Owns(w, claim.done, Close(i))
      && (i in w.closes ==> w.closes[i] == claim.done && !Out(w, claim.done).Failed?)
      && (i !in w.closes ==> !Out(w, claim.done).Unset?)
      && (Close(i) in w.table.claims ==> w.table.claims[Close(i)] == Claim(None, claim.paths, claim.done))
      && (Close(i) in w.table.claims <==> i in w.closes || Out(w, claim.done).Failed?)
  }

  /** The map holds each thread's latest stop until it settled cleanly, or
      failed with nothing to match it. */
  ghost predicate StopOk(w: World, t: string) {
    && (Stop(t) in w.table.claims ==> t in w.latest)
    && (t in w.latest ==>
          var stop := w.latest[t];
          var claim := Claim(stop.workspaceId, stop.paths, stop.done);
          && Owns(w, stop.done, Stop(t))
          && (Stop(t) in w.table.claims ==> w.table.claims[Stop(t)] == claim)
          && (Out(w, stop.done).Unset? ==> Stop(t) in w.table.claims && Sender(t, stop.done) in w.senders)
          && (Out(w, stop.done).Failed? && !Unmatchable(claim) ==> Stop(t) in w.table.claims)
          && (Stop(t) in w.table.claims && !Out(w, stop.done).Unset? &&
              !(Out(w, stop.done).Failed? && !Unmatchable(claim)) ==>
                Sender(t, stop.done) in w.settling))
  }

  ghost predicate SenderOk(w: World, s: Sender) {
    && (s in w.senders ==> Owns(w, s.done, Stop(s.thread)) && Out(w, s.done).Unset?)
    && (s in w.settling ==> Owns(w, s.done, Stop(s.thread)) && !Out(w, s.done).Unset?)
  }

  ghost predicate SizesOk(w: World) {
    && |w.owner| == |w.table.outcomes|
    && w.table.nextClose == |w.taken|
    && (forall id :: id in w.closes ==> id < |w.taken|)
    && (forall key :: key in w.table.claims && key.Close? ==> key.id < |w.taken|)
  }

  ghost predicate Inv(w: World) {
    && SizesOk(w)
    && (forall i: nat :: CloseOk(w, i))
    && (forall t :: StopOk(w, t))
    && (forall s :: SenderOk(w, s))
  }

  /** Only the outcome of `done` and the claim of `key`, its owner, differ. */
  ghost predicate OnlyOwner(w: World, v: World, done: Chan, key: Key) {
    && Owns(w, done, key) && v.owner == w.owner && |v.table.outcomes| == |w.table.outcomes| == |w.owner|
    && (forall c :: 0 <= c < |w.owner| && c != done ==> v.table.outcomes[c] == w.table.outcomes[c])
    && (forall k :: k != key ==> (k in v.table.claims <==> k in w.table.claims))
    && (forall k :: k != key && k in v.table.claims ==> v.table.claims[k] == w.table.claims[k])
  }

  lemma CloseKeeps(w: World, e: Event)
    requires Inv(w) && IsClose(e) && Enabled(w, e)
    ensures Inv(Step(w, e))
  {
    var v := Step(w, e);
    var done := w.closes[e.id];
    assert CloseOk(w, e.id);
    assert OnlyOwner(w, v, done, Close(e.id));
    forall i: nat ensures CloseOk(v, i) {
      assert CloseOk(w, i);
    }
    forall t ensures StopOk(v, t) {
      assert StopOk(w, t);
    }
    forall s ensures SenderOk(v, s) {
      assert SenderOk(w, s);
    }
  }

  lemma TakeKeeps(w: World, paths: seq<Path>)
    requires Inv(w)
    ensures Inv(Step(w, TakeClaim(paths)))
  {
    var v := Step(w, TakeClaim(paths));
    forall i: nat ensures CloseOk(v, i) {
      assert CloseOk(w, i);
    }
    forall t ensures StopOk(v, t) {
      assert StopOk(w, t);
    }
    forall s ensures SenderOk(v, s) {
      assert SenderOk(w, s);
    }
  }

  lemma SettleKeeps(w: World, sender: Sender, outcome: Outcome)
    requires Inv(w) && Enabled(w, Settle(sender, outcome))
    ensures Inv(Step(w, Settle(sender, outcome)))
  {
    var v := Step(w, Settle(sender, outcome));
    assert SenderOk(w, sender);
    assert OnlyOwner(w, v, sender.done, Stop(sender.thread));
    forall i: nat ensures CloseOk(v, i) {
      assert CloseOk(w, i);
    }
    forall t ensures StopOk(v, t) {
      assert StopOk(w, t);
    }
    forall s ensures SenderOk(v, s) {
      assert SenderOk(w, s);
    }
  }

  lemma SweepKeeps(w: World, sender: Sender)
    requires Inv(w) && Enabled(w, Sweep(sender))
    ensures Inv(Step(w, Sweep(sender)))
  {
    var v := Step(w, Sweep(sender));
    assert SenderOk(w, sender);
    assert OnlyOwner(w, v, sender.done, Stop(sender.thread));
    forall i: nat ensures CloseOk(v, i) {
      assert CloseOk(w, i);
    }
    forall t ensures StopOk(v, t) {
      assert StopOk(w, t);
    }
    forall s ensures SenderOk(v, s) {
      assert SenderOk(w, s);
    }
  }

  /** The world with the batch under construction already handed out. */
  function With(w: World, batch: map<string, Chan>): World {
    w.(senders := w.senders + Pairs(batch))
  }

  lemma BeginOneKeeps(w: World, batch: map<string, Chan>, s: Session)
    requires Inv(With(w, batch))
    ensures Inv(With(BeginOne(w, s), batch[s.thread := |w.table.outcomes|]))
  {
    var u := With(w, batch);
    var done: Chan := |w.table.outcomes|;
    var more := batch[s.thread := done];
    var v := With(BeginOne(w, s), more);
    assert forall p :: p in v.senders ==> p in u.senders || p == Sender(s.thread, done);
    assert forall p :: p in u.senders && p.thread != s.thread ==> p in v.senders by {
      forall p | p in u.senders && p.thread != s.thread ensures p in v.senders {
        if p !in w.senders {
          assert p.thread in more;
        }
      }
    }
    assert s.thread in more && Sender(s.thread, done) in v.senders;
    forall i: nat ensures CloseOk(v, i) {
      assert CloseOk(u, i);
    }
    forall t ensures StopOk(v, t) {
      assert StopOk(u, t);
    }
    forall p ensures SenderOk(v, p) {
      assert SenderOk(u, p);
    }
  }

  lemma {:induction false} BeginAllKeeps(w: World, batch: map<string, Chan>, sessions: seq<Session>)
    requires Inv(With(w, batch))
    ensures Inv(BeginAll(w, batch, sessions))
    decreases |sessions|
  {
    if sessions != [] {
      BeginOneKeeps(w, batch, sessions[0]);
      BeginAllKeeps(BeginOne(w, sessions[0]), batch[sessions[0].thread := |w.table.outcomes|], sessions[1..]);
    }
  }

  lemma NextKeeps(w: World, e: Event)
    requires Inv(w)
    ensures Inv(Next(w, e))
  {
    if Enabled(w, e) {
      match e
      case TakeClaim(paths) => TakeKeeps(w, paths);
      case BeginStops(sessions) =>
        assert Pairs(map[]) == {};
        assert With(w, map[]) == w;
        BeginAllKeeps(w, map[], sessions);
      case Settle(sender, outcome) => SettleKeeps(w, sender, outcome);
      case Sweep(sender) => SweepKeeps(w, sender);
      case _ => CloseKeeps(w, e);
    }
  }

  lemma {:induction false} RunKeeps(w: World, es: seq<Event>)
    requires Inv(w)
    ensures Inv(Run(w, es))
    decreases |es|
  {
    if es != [] {
      RunKeeps(w, es[..|es| - 1]);
      NextKeeps(Run(w, es[..|es| - 1]), es[|es| - 1]);
    }
  }

  lemma Reachable(es: seq<Event>) returns (w: World)
    ensures w == Run(FRESH, es) && Inv(w) && WellFormed(w.table)
  {
    RunKeeps(FRESH, es);
    w := Run(FRESH, es);
    InvIsWellFormed(w);
  }

  lemma InvIsWellFormed(w: World)
    requires Inv(w)
    ensures WellFormed(w.table)
  {
    forall key | key in w.table.claims ensures w.table.claims[key].result < |w.table.outcomes| {
      match key
      case Close(i) => assert CloseOk(w, i);
      case Stop(t) => assert StopOk(w, t);
    }
  }
}
