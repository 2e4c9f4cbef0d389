/** The registry of agent processes and the walk that decides whether a
    process descends from one, over a process table that keeps changing. */
module AgentAncestry {
  import opened Basics

  type Pid = nat

  datatype Proc = Proc(parent: Pid, start: nat)

  /** The live processes: what `/proc/<pid>/stat` tells, `None` when absent. */
  type Table = map<Pid, Proc>

  /** A process, told apart from others that had its pid by its start time. */
  datatype Process = Process(pid: Pid, start: nat)

  const PRUNE_AT: nat := 4096
  const MAX_HOPS: nat := 64

  function Stat(table: Table, pid: Pid): Option<Proc> {
    if pid in table then Some(table[pid]) else None
  }

  function AfterInsert(roots: map<Pid, nat>, table: Table, pid: Pid, start: nat): map<Pid, nat> {
    var alive := map p | p in roots && p in table && table[p].start == roots[p] :: roots[p];
    var kept := if |roots| >= PRUNE_AT then alive else roots;
    kept[pid := start]
  }

  function AfterRegister(roots: map<Pid, nat>, table: Table, pid: Pid): map<Pid, nat> {
    if pid in table then AfterInsert(roots, table, pid, table[pid].start) else roots
  }

  /** The processes a walk up from `pid` records, `stat` being asked at each
      hop: at most `left` more, stopping at init, at the app, and where a
      process is gone. */
  function Walk(stat: (nat, Pid) -> Option<Proc>, own: Pid, pid: Pid, hop: nat, left: nat): seq<Process>
    decreases left
  {
    if left == 0 || pid <= 1 || pid == own || stat(hop, pid).None? then []
    else [Process(pid, stat(hop, pid).value.start)] + Walk(stat, own, stat(hop, pid).value.parent, hop + 1, left - 1)
  }

  predicate Marks(roots: map<Pid, nat>, p: Process) {
    p.pid in roots && roots[p.pid] == p.start
  }

  class Registry {
    var roots: map<Pid, nat>

    constructor ()
      ensures roots == map[]
    {
      roots := map[];
    }

    method Insert(pid: Pid, start: nat, table: Table)
      modifies this
      ensures roots == AfterInsert(old(roots), table, pid, start)
    {
      if |roots| >= PRUNE_AT {
        roots := map p | p in roots && Stat(table, p).Some? && Stat(table, p).value.start == roots[p] :: roots[p];
      }
      roots := roots[pid := start];
    }

    method Register(pid: Pid, table: Table)
      modifies this
      ensures roots == AfterRegister(old(roots), table, pid)
    {
      var stat := Stat(table, pid);
      if stat.Some? {
        Insert(pid, stat.value.start, table);
      }
    }

    /** `stat(h, p)` is what the process table says of `p` when the walk asks
        for the `h`-th time. */
    method IsDescendant(pid: Pid, own: Pid, stat: (nat, Pid) -> Option<Proc>) returns (marked: bool)
      ensures marked <==> AnyMarked(roots, Walk(stat, own, pid, 0, MAX_HOPS))
    {
      if roots == map[] {
        return false;
      }
      var chain := WalkUp(pid, own, stat, MAX_HOPS);
      marked := exists i :: 0 <= i < |chain| && Marks(roots, chain[i]);
    }
  }

  ghost predicate AnyMarked(roots: map<Pid, nat>, walk: seq<Process>) {
    exists i :: 0 <= i < |walk| && Marks(roots, walk[i])
  }

  method WalkUp(pid: Pid, own: Pid, stat: (nat, Pid) -> Option<Proc>, limit: nat) returns (chain: seq<Process>)
    ensures chain == Walk(stat, own, pid, 0, limit)
  {
    chain := [];
    var current := pid;
    while |chain| < limit && current > 1 && current != own
      invariant |chain| <= limit
      invariant Walk(stat, own, pid, 0, limit) == chain + Walk(stat, own, current, |chain|, limit - |chain|)
      decreases limit - |chain|
    {
      var proc := stat(|chain|, current);
      if proc.None? {
        break;
      }
      var more := chain + [Process(current, proc.value.start)];
      assert more + Walk(stat, own, proc.value.parent, |more|, limit - |more|)
          == chain + Walk(stat, own, current, |chain|, limit - |chain|);
      chain, current := more, proc.value.parent;
    }
    assert chain + [] == chain;
  }

  // ------------------------------------------------------------ parent chains

  /** The `k`-th ancestor of `pid`, by parent pids of live processes. */
  function Ancestor(table: Table, pid: Pid, k: nat): Option<Pid> {
    if k == 0 then Some(pid)
    else
      var below := Ancestor(table, pid, k - 1);
      if below.Some? && below.value in table then Some(table[below.value].parent) else None
  }

  /** The chain up to its `k`-th member stays below init and outside the app,
      and every member is alive. */
  ghost predicate Reaches(table: Table, own: Pid, pid: Pid, k: nat) {
    forall j :: 0 <= j <= k ==>
      var a := Ancestor(table, pid, j);
      a.Some? && a.value > 1 && a.value != own && a.value in table
  }

  function Fixed(table: Table): (nat, Pid) -> Option<Proc> {
    (hop: nat, pid: Pid) => Stat(table, pid)
  }

  lemma {:induction false} AncestorUp(table: Table, pid: Pid, k: nat)
    requires pid in table
    ensures Ancestor(table, pid, k + 1) == Ancestor(table, table[pid].parent, k)
  {
    if k > 0 {
      AncestorUp(table, pid, k - 1);
    } else {
      assert Ancestor(table, pid, 0) == Some(pid);
    }
  }

  lemma ReachesUp(table: Table, own: Pid, pid: Pid, k: nat)
    requires pid in table && pid > 1 && pid != own
    ensures Reaches(table, own, pid, k + 1) <==> Reaches(table, own, table[pid].parent, k)
  {
    forall j: nat ensures Ancestor(table, pid, j + 1) == Ancestor(table, table[pid].parent, j) {
      AncestorUp(table, pid, j);
    }
    if Reaches(table, own, table[pid].parent, k) {
      forall j | 0 <= j <= k + 1
        ensures var a := Ancestor(table, pid, j); a.Some? && a.value > 1 && a.value != own && a.value in table
      {
        if j > 0 {
          assert Ancestor(table, pid, j - 1 + 1) == Ancestor(table, table[pid].parent, j - 1);
        }
      }
    }
    if Reaches(table, own, pid, k + 1) {
      forall j | 0 <= j <= k
        ensures var a := Ancestor(table, table[pid].parent, j);
                a.Some? && a.value > 1 && a.value != own && a.value in table
      {
        assert Ancestor(table, pid, j + 1) == Ancestor(table, table[pid].parent, j);
      }
    }
  }

  /** The walk records exactly the parent chain: its `k`-th entry is the `k`-th
      ancestor, for every `k` within the hops that the chain reaches. */
  lemma {:induction false} WalkIsTheChain(table: Table, own: Pid, pid: Pid, hop: nat, left: nat, k: nat)
    ensures var walk := Walk(Fixed(table), own, pid, hop, left);
            && (k < |walk| <==> k < left && Reaches(table, own, pid, k))
            && (k < |walk| ==>
                  && Ancestor(table, pid, k) == Some(walk[k].pid)
                  && walk[k].pid in table && walk[k].start == table[walk[k].pid].start)
    decreases left
  {
    var walk := Walk(Fixed(table), own, pid, hop, left);
    assert Ancestor(table, pid, 0) == Some(pid);
    if walk == [] {
      assert left > 0 ==> !Reaches(table, own, pid, k) by {
        assert Reaches(table, own, pid, k) ==>
            var a := Ancestor(table, pid, 0); a.Some? && a.value > 1 && a.value != own && a.value in table;
      }
    } else {
      var parent := table[pid].parent;
      assert walk[1..] == Walk(Fixed(table), own, parent, hop + 1, left - 1);
      if k > 0 {
        WalkIsTheChain(table, own, parent, hop + 1, left - 1, k - 1);
        ReachesUp(table, own, pid, k - 1);
        AncestorUp(table, pid, k - 1);
        assert k < |walk| ==> walk[k] == walk[1..][k - 1];
      }
    }
  }

  // -------------------------------------------------------------- whole runs

  /** `started` are all processes there ever were, `registered` those that
      were alive when Codemux registered them. */
  datatype World = World(table: Table, roots: map<Pid, nat>, started: set<Process>, registered: set<Process>)

  const BOOT := World(map[], map[], {}, {})

  datatype Event =
    | Spawn(pid: Pid, parent: Pid, start: nat)
    | Exit(pid: Pid)
    | Adopt(pid: Pid, parent: Pid)
    | Register(pid: Pid)

  /** A pid is reused only once free, and never with the same start time. */
  function Next(w: World, e: Event): World {
    match e
    case Spawn(pid, parent, start) =>
      if pid in w.table || Process(pid, start) in w.started then w
      else w.(table := w.table[pid := Proc(parent, start)], started := w.started + {Process(pid, start)})
    case Exit(pid) => w.(table := w.table - {pid})
    case Adopt(pid, parent) =>
      if pid in w.table then w.(table := w.table[pid := w.table[pid].(parent := parent)]) else w
    case Register(pid) =>
      w.(roots := AfterRegister(w.roots, w.table, pid),
         registered := if pid in w.table then w.registered + {Process(pid, w.table[pid].start)} else w.registered)
  }

  function Run(w: World, es: seq<Event>): World
    decreases |es|
  {
    if es == [] then w else Next(Run(w, es[..|es| - 1]), es[|es| - 1])
  }

  ghost predicate Inv(w: World) {
    && (forall p :: p in w.table ==> Process(p, w.table[p].start) in w.started)
    && w.registered <= w.started
    && (forall p :: p in w.table ==>
        (Process(p, w.table[p].start) in w.registered <==> Marks(w.roots, Process(p, w.table[p].start))))
    && (forall p :: p in w.roots ==> Process(p, w.roots[p]) in w.registered)
  }

  lemma NextKeeps(w: World, e: Event)
    requires Inv(w)
    ensures Inv(Next(w, e))
  {
    if e.Spawn? && Next(w, e) != w {
      var v := Next(w, e);
      assert Process(e.pid, e.start) !in w.registered;
      assert e.pid in w.roots ==> Process(e.pid, w.roots[e.pid]) in w.registered;
    }
  }

  lemma {:induction false} RunKeeps(es: seq<Event>)
    ensures Inv(Run(BOOT, es))
    decreases |es|
  {
    if es != [] {
      RunKeeps(es[..|es| - 1]);
      NextKeeps(Run(BOOT, es[..|es| - 1]), es[|es| - 1]);
    }
  }

  /** Over every run of starts, exits, adoptions, registrations and pid reuse,
      the registry marks a live process exactly when that very process was
      registered: pruning loses no live one, and a reused pid inherits
      nothing. What a slow walk saw before it died is marked only if it was
      registered too. */
  lemma MarksExactlyTheRegistered(es: seq<Event>, process: Process)
    ensures var w := Run(BOOT, es);
            && (Marks(w.roots, process) ==> process in w.registered)
            && (process.pid in w.table && w.table[process.pid].start == process.start ==>
                  (Marks(w.roots, process) <==> process in w.registered))
  {
    RunKeeps(es);
  }

  /** The descent test, exactly: some process on the parent chain, within the
      hop limit and before init or the app, was registered. */
  lemma DescendantExactly(es: seq<Event>, own: Pid, pid: Pid)
    ensures var w := Run(BOOT, es);
            var walk := Walk(Fixed(w.table), own, pid, 0, MAX_HOPS);
            AnyMarked(w.roots, walk) <==>
            (exists k :: 0 <= k < 64 && Reaches(w.table, own, pid, k) && RegisteredAt(w, pid, k))
  {
    RunKeeps(es);
    var w := Run(BOOT, es);
    var walk := Walk(Fixed(w.table), own, pid, 0, MAX_HOPS);
    if i :| 0 <= i < |walk| && Marks(w.roots, walk[i]) {
      WalkIsTheChain(w.table, own, pid, 0, MAX_HOPS, i);
      assert RegisteredAt(w, pid, i);
    }
    if k :| 0 <= k < MAX_HOPS && Reaches(w.table, own, pid, k) && RegisteredAt(w, pid, k) {
      WalkIsTheChain(w.table, own, pid, 0, MAX_HOPS, k);
      assert Marks(w.roots, walk[k]);
    }
  }

  lemma {:induction false} WalkSaw(stat: (nat, Pid) -> Option<Proc>, own: Pid, pid: Pid, hop: nat, left: nat, i: nat)
    requires i < |Walk(stat, own, pid, hop, left)|
    ensures var p := Walk(stat, own, pid, hop, left)[i];
            stat(hop + i, p.pid).Some? && stat(hop + i, p.pid).value.start == p.start
    decreases left
  {
    if i > 0 {
      var parent := stat(hop, pid).value.parent;
      assert Walk(stat, own, pid, hop, left)[1..] == Walk(stat, own, parent, hop + 1, left - 1);
      WalkSaw(stat, own, parent, hop + 1, left - 1, i - 1);
    }
  }

  /** The event takes the mark of `p` away: it registers a new process with the
      same pid, or it registers any process once `p` is gone and the registry
      is full. */
  predicate Unmarks(w: World, e: Event, p: Process) {
    && e.Register? && e.pid in w.table
    && if e.pid == p.pid then w.table[e.pid].start != p.start else |w.roots| >= 4096 && !Alive(w, p)
  }

  /** What one event does to the mark of a process. */
  lemma MarkStep(w: World, e: Event, p: Process)
    requires Inv(w)
    ensures var v := Next(w, e);
            Marks(v.roots, p) <==>
            (Marks(w.roots, p) && !Unmarks(w, e, p)) || (e == Register(p.pid) && p in v.registered && Alive(v, p))
  {
  }

  /** The process is registered and alive. */
  predicate Holds(w: World, p: Process) {
    p in w.registered && Alive(w, p)
  }

  /** So it is at the moment `from` of the run, and no later event takes its
      mark away. */
  ghost predicate HoldsSince(es: seq<Event>, from: nat, p: Process) {
    from <= |es| && Holds(Run(BOOT, es[..from]), p) && forall k :: from <= k ==> !UnmarksAt(es, k, p)
  }

  ghost predicate UnmarksAt(es: seq<Event>, k: nat, p: Process) {
    k < |es| && Unmarks(Run(BOOT, es[..k]), es[k], p)
  }

  ghost predicate HoldsTheMark(es: seq<Event>, p: Process) {
    exists from :: HoldsSince(es, from, p)
  }

  lemma UnmarksPrefix(es: seq<Event>, k: nat, p: Process)
    requires es != []
    ensures var before, e := es[..|es| - 1], es[|es| - 1];
            UnmarksAt(es, k, p) <==>
            UnmarksAt(before, k, p) || (k == |before| && Unmarks(Run(BOOT, before), e, p))
  {
    if k < |es| - 1 {
      assert es[..|es| - 1][..k] == es[..k];
    }
  }

  lemma HoldsBefore(es: seq<Event>, from: nat, p: Process)
    requires from < |es|
    ensures var before, e := es[..|es| - 1], es[|es| - 1];
            HoldsSince(es, from, p) <==> HoldsSince(before, from, p) && !Unmarks(Run(BOOT, before), e, p)
  {
    var before, e := es[..|es| - 1], es[|es| - 1];
    assert before[..from] == es[..from];
    forall k: nat ensures UnmarksAt(es, k, p) <==>
                          UnmarksAt(before, k, p) || (k == |before| && Unmarks(Run(BOOT, before), e, p)) {
      UnmarksPrefix(es, k, p);
    }
    if HoldsSince(es, from, p) {
      assert !UnmarksAt(es, |before|, p);
    }
  }

  lemma HoldsNow(es: seq<Event>, p: Process)
    ensures HoldsSince(es, |es|, p) <==> Holds(Run(BOOT, es), p)
  {
    assert es[..|es|] == es;
  }

  /** Over every run, a process is marked if and only if it was registered while
      alive and no event took its mark away since, whether it exited or not. */
  lemma {:induction false} MarkedExactly(es: seq<Event>, p: Process)
    ensures Marks(Run(BOOT, es).roots, p) <==> HoldsTheMark(es, p)
    decreases |es|
  {
    RunKeeps(es);
    if es == [] {
      assert forall from: nat :: from <= |es| ==> es[..from] == [];
    } else {
      var before, e := es[..|es| - 1], es[|es| - 1];
      var w := Run(BOOT, before);
      RunKeeps(before);
      MarkedExactly(before, p);
      MarkStep(w, e, p);
      forall from: nat | from < |es|
        ensures HoldsSince(es, from, p) <==> HoldsSince(before, from, p) && !Unmarks(w, e, p)
      {
        HoldsBefore(es, from, p);
      }
      HoldsNow(es, p);
    }
  }

  /** The process table at the moments `at` of a run. */
  function StatAt(es: seq<Event>, at: nat -> nat): (nat, Pid) -> Option<Proc>
    requires forall h :: at(h) <= |es|
  {
    (h: nat, p: Pid) => Stat(Run(BOOT, es[..at(h)]).table, p)
  }

  lemma AliveWhenRead(es: seq<Event>, at: nat -> nat, h: nat, p: Process)
    requires forall h :: at(h) <= |es|
    requires StatAt(es, at)(h, p.pid).Some? && StatAt(es, at)(h, p.pid).value.start == p.start
    ensures Alive(Run(BOOT, es[..at(h)]), p)
  {
  }

  /** A walk whose reads fall between the events of a run, each at its own
      moment, and whose answer falls at the end: every recorded process was alive
      when it was read, and the answer is positive if and only if one of them
      was registered while alive and nothing took its mark away since, that is
      no registration of another process with its pid, and none that prunes
      after it exited. */
  lemma InterleavedWalk(es: seq<Event>, at: nat -> nat, own: Pid, pid: Pid, hops: nat)
    requires forall h :: at(h) <= |es|
    ensures var walk := Walk(StatAt(es, at), own, pid, 0, hops);
            && (forall i :: 0 <= i < |walk| ==> Alive(Run(BOOT, es[..at(i)]), walk[i]))
            && (AnyMarked(Run(BOOT, es).roots, walk) <==> exists i :: 0 <= i < |walk| && HoldsTheMark(es, walk[i]))
  {
    var stat := StatAt(es, at);
    var walk := Walk(stat, own, pid, 0, hops);
    forall i | 0 <= i < |walk|
      ensures Alive(Run(BOOT, es[..at(i)]), walk[i])
      ensures Marks(Run(BOOT, es).roots, walk[i]) <==> HoldsTheMark(es, walk[i])
    {
      WalkSaw(stat, own, pid, 0, hops, i);
      AliveWhenRead(es, at, i, walk[i]);
      MarkedExactly(es, walk[i]);
    }
  }

  predicate Alive(w: World, p: Process) {
    p.pid in w.table && w.table[p.pid].start == p.start
  }

  ghost predicate RegisteredAt(w: World, pid: Pid, k: nat) {
    var a := Ancestor(w.table, pid, k);
    a.Some? && a.value in w.table && Process(a.value, w.table[a.value].start) in w.registered
  }
}
