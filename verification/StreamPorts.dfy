/** The stream-port allocator: a counter that wraps over a fixed range, a map
    of live sessions, and a bind test that skips ports other programs hold. */
module StreamPorts {
  import opened Basics

  const DEFAULT_STREAM_PORT: nat := 9223
  const MAX_STREAM_PORT: nat := 9299
  const RANGE: nat := MAX_STREAM_PORT - DEFAULT_STREAM_PORT + 1

  datatype Session = Session(port: nat, running: bool)

  datatype Manager = Manager(nextPort: nat, sessions: map<string, Session>)

  const NEW := Manager(DEFAULT_STREAM_PORT, map[])

  predicate InRange(port: nat) {
    DEFAULT_STREAM_PORT <= port <= MAX_STREAM_PORT
  }

  /** `u16` arithmetic of the counter. */
  function Bump(counter: nat): nat {
    (counter + 1) % 0x1_0000
  }

  ghost predicate Owned(sessions: map<string, Session>, port: nat) {
    exists k :: k in sessions && sessions[k].port == port
  }

  ghost predicate Free(m: Manager, bindable: set<nat>, port: nat) {
    port in bindable && !Owned(m.sessions, port)
  }

  ghost function FreePorts(m: Manager, bindable: set<nat>): set<nat> {
    set p | 9223 <= p <= 9299 && Free(m, bindable, p)
  }

  /** What `tries` rounds from `counter` find, and where they leave it. */
  function Search(counter: nat, tries: nat, free: set<nat>): (Option<nat>, nat)
    decreases tries
  {
    if tries == 0 then (None, counter)
    else if counter > MAX_STREAM_PORT then Search(DEFAULT_STREAM_PORT, tries - 1, free)
    else if counter in free then (Some(counter), Bump(counter))
    else Search(Bump(counter), tries - 1, free)
  }

  ghost function AfterAllocate(m: Manager, key: string, bindable: set<nat>): Manager {
    if key in m.sessions then m
    else
      var (port, counter) := Search(m.nextPort, RANGE, FreePorts(m, bindable));
      Manager(counter, if port.Some? then m.sessions[key := Session(port.value, false)] else m.sessions)
  }

  function AfterClose(m: Manager, key: string): Manager {
    m.(sessions := m.sessions - {key})
  }

  class AgentBrowserManager {
    var nextPort: nat
    var sessions: map<string, Session>

    ghost function State(): Manager
      reads this
    {
      Manager(nextPort, sessions)
    }

    ghost predicate Valid()
      reads this
    {
      Inv(State())
    }

    constructor ()
      ensures State() == NEW && Valid()
    {
      nextPort, sessions := DEFAULT_STREAM_PORT, map[];
    }

    /** `bindable` are the ports the bind test succeeds on during the call. */
    method AllocatePort(key: string, bindable: set<nat>) returns (port: Option<nat>)
      requires Valid()
      modifies this
      ensures Valid() && State() == AfterAllocate(old(State()), key, bindable)
      ensures port == if key in sessions then Some(sessions[key].port) else None
      ensures port.Some? && key !in old(sessions) ==>
                && port.value in bindable && !sessions[key].running
                && forall k :: k in old(sessions) ==> old(sessions)[k].port != port.value
      ensures forall k :: k != key ==> (k in sessions <==> k in old(sessions))
      ensures forall k :: k in old(sessions) ==> k in sessions && sessions[k] == old(sessions)[k]
      ensures port.None? <==> key !in old(sessions) && FreePorts(old(State()), bindable) <= {old(nextPort) - 1}
    {
      AllocateKeeps(State(), key, bindable);
      FailsExactly(nextPort, FreePorts(State(), bindable));
      if key in sessions {
        return Some(sessions[key].port);
      }
      ghost var free := FreePorts(State(), bindable);
      for i := 0 to RANGE
        invariant sessions == old(sessions)
        invariant nextPort <= MAX_STREAM_PORT + 1 && DEFAULT_STREAM_PORT <= nextPort
        invariant Search(nextPort, RANGE - i, free) == Search(old(nextPort), RANGE, free)
      {
        var candidate := nextPort;
        nextPort := Bump(candidate);
        if candidate > MAX_STREAM_PORT {
          nextPort := DEFAULT_STREAM_PORT;
          continue;
        }
        if exists k :: k in sessions && sessions[k].port == candidate {
          continue;
        }
        if candidate !in bindable {
          continue;
        }
        sessions := sessions[key := Session(candidate, false)];
        return Some(candidate);
      }
      return None;
    }

    /** The port it finds is of the range, and this key's alone. */
    method GetPort(key: string) returns (port: Option<nat>)
      requires Valid()
      ensures port.Some? <==> key in sessions
      ensures port.Some? ==>
                InRange(port.value) && forall k :: k in sessions ==> (sessions[k].port == port.value <==> k == key)
    {
      port := if key in sessions then Some(sessions[key].port) else None;
    }

    /** Marks the session running, except before a close; reports the prior
        mark. */
    method NoteActionStart(key: string, action: string) returns (wasRunning: bool)
      requires Valid()
      modifies this
      ensures Valid() && nextPort == old(nextPort) && sessions.Keys == old(sessions.Keys)
      ensures forall k :: k in sessions ==>
                sessions[k] ==
                  if k == key && action != "close" then old(sessions)[k].(running := true) else old(sessions)[k]
      ensures wasRunning <==> key in old(sessions) && old(sessions)[key].running
    {
      wasRunning := key in sessions && sessions[key].running;
      if key in sessions && action != "close" {
        sessions := sessions[key := sessions[key].(running := true)];
      }
    }

    method Close(key: string)
      requires Valid()
      modifies this
      ensures Valid() && State() == AfterClose(old(State()), key)
      ensures key !in sessions && nextPort == old(nextPort)
      ensures forall k :: k != key ==> (k in sessions <==> k in old(sessions))
      ensures forall k :: k in sessions ==> sessions[k] == old(sessions)[k]
    {
      sessions := sessions - {key};
    }
  }

  // ------------------------------------------------------------ one search

  /** The first port of `free` from `lo` on, below `hi`, or `hi`. */
  function FirstFree(lo: nat, hi: nat, free: set<nat>): (p: nat)
    requires lo <= hi
    ensures lo <= p <= hi && (p < hi ==> p in free) && forall q :: lo <= q < p ==> q !in free
    decreases hi - lo
  {
    if lo == hi || lo in free then lo else FirstFree(lo + 1, hi, free)
  }

  lemma {:induction false} Climb(lo: nat, hi: nat, tries: nat, free: set<nat>)
    requires lo <= hi <= MAX_STREAM_PORT + 1 && hi - lo <= tries
    requires forall q :: lo <= q < hi ==> q !in free
    ensures Search(lo, tries, free) == Search(hi, tries - (hi - lo), free)
    decreases hi - lo
  {
    if lo < hi {
      Climb(lo + 1, hi, tries - 1, free);
    }
  }

  /** The tries that are left after the wrap, from the bottom of the range. */
  lemma SearchLow(c: nat, tries: nat, free: set<nat>)
    requires DEFAULT_STREAM_PORT < c <= MAX_STREAM_PORT + 1 && tries == c - DEFAULT_STREAM_PORT
    ensures var low := FirstFree(DEFAULT_STREAM_PORT, c - 1, free);
            Search(MAX_STREAM_PORT + 1, tries, free) ==
              if low < c - 1 then (Some(low), low + 1) else (None, c - 1)
  {
    var low := FirstFree(DEFAULT_STREAM_PORT, c - 1, free);
    assert Search(MAX_STREAM_PORT + 1, tries, free) == Search(DEFAULT_STREAM_PORT, tries - 1, free);
    Climb(DEFAULT_STREAM_PORT, low, tries - 1, free);
  }

  /** Where a full search from counter `c` ends: the first free port from `c`
      up, or else from the bottom of the range up to two below `c`. The wrap
      uses up one of the tries, so the port right below `c` is never tried. */
  function Found(c: nat, free: set<nat>): (Option<nat>, nat)
    requires DEFAULT_STREAM_PORT <= c <= MAX_STREAM_PORT + 1
  {
    var up := FirstFree(c, MAX_STREAM_PORT + 1, free);
    if up <= MAX_STREAM_PORT then (Some(up), up + 1)
    else if c == DEFAULT_STREAM_PORT then (None, MAX_STREAM_PORT + 1)
    else
      var low := FirstFree(DEFAULT_STREAM_PORT, c - 1, free);
      if low < c - 1 then (Some(low), low + 1) else (None, c - 1)
  }

  lemma SearchFinds(c: nat, free: set<nat>)
    requires DEFAULT_STREAM_PORT <= c <= MAX_STREAM_PORT + 1
    ensures Search(c, RANGE, free) == Found(c, free)
  {
    FullSearch(c, RANGE, free);
  }

  lemma FullSearch(c: nat, tries: nat, free: set<nat>)
    requires DEFAULT_STREAM_PORT <= c <= MAX_STREAM_PORT + 1 && tries == RANGE
    ensures Search(c, tries, free) == Found(c, free)
  {
    var up := FirstFree(c, MAX_STREAM_PORT + 1, free);
    Climb(c, up, tries, free);
    if up == MAX_STREAM_PORT + 1 && c > DEFAULT_STREAM_PORT {
      SearchLow(c, tries - (up - c), free);
    }
  }

  /** A search fails exactly when no port is free, except possibly the one
      just before the starting counter. */
  lemma FailsExactly(c: nat, free: set<nat>)
    requires DEFAULT_STREAM_PORT <= c <= MAX_STREAM_PORT + 1
    requires forall p :: p in free ==> InRange(p)
    ensures Search(c, RANGE, free).0.None? <==> free <= {c - 1}
    ensures Search(c, RANGE, free).0.Some? ==> Search(c, RANGE, free).0.value in free
    ensures DEFAULT_STREAM_PORT <= Search(c, RANGE, free).1 <= MAX_STREAM_PORT + 1
  {
    SearchFinds(c, free);
  }

  // -------------------------------------------------------------- whole runs

  ghost predicate Inv(m: Manager) {
    && DEFAULT_STREAM_PORT <= m.nextPort <= MAX_STREAM_PORT + 1
    && (forall k :: k in m.sessions ==> InRange(m.sessions[k].port))
    && (forall k, l :: k in m.sessions && l in m.sessions && m.sessions[k].port == m.sessions[l].port ==> k == l)
  }

  lemma AllocateKeeps(m: Manager, key: string, bindable: set<nat>)
    requires Inv(m)
    ensures Inv(AfterAllocate(m, key, bindable))
  {
    FailsExactly(m.nextPort, FreePorts(m, bindable));
  }

  datatype Event = Allocate(key: string, bindable: set<nat>) | CloseSession(key: string)

  ghost function Next(m: Manager, e: Event): Manager {
    match e
    case Allocate(key, bindable) => AfterAllocate(m, key, bindable)
    case CloseSession(key) => AfterClose(m, key)
  }

  ghost function Run(m: Manager, es: seq<Event>): Manager
    decreases |es|
  {
    if es == [] then m else Next(Run(m, es[..|es| - 1]), es[|es| - 1])
  }

  lemma {:induction false} RunKeeps(m: Manager, es: seq<Event>)
    requires Inv(m)
    ensures Inv(Run(m, es))
    decreases |es|
  {
    if es != [] {
      RunKeeps(m, es[..|es| - 1]);
      if es[|es| - 1].Allocate? {
        AllocateKeeps(Run(m, es[..|es| - 1]), es[|es| - 1].key, es[|es| - 1].bindable);
      }
    }
  }

  /** Over every run of allocations and closes, against any changing set of
      bindable ports: distinct keys hold distinct ports of the range, and the
      counter never leaves it by more than one. */
  lemma DistinctPorts(es: seq<Event>, k: string, l: string)
    requires var m := Run(NEW, es);
             k in m.sessions && l in m.sessions && k != l
    ensures var m := Run(NEW, es);
            && m.sessions[k].port != m.sessions[l].port
            && 9223 <= m.sessions[k].port <= 9299 && 9223 <= m.sessions[l].port <= 9299
            && 9223 <= m.nextPort <= 9300
  {
    RunKeeps(NEW, es);
  }

  /** A key keeps its port through every run that does not close it, and every
      allocation for it returns that port. */
  lemma {:induction false} PortStaysUntilClosed(m: Manager, es: seq<Event>, key: string)
    requires Inv(m) && key in m.sessions
    requires forall i :: 0 <= i < |es| ==> es[i] != CloseSession(key)
    ensures key in Run(m, es).sessions && Run(m, es).sessions[key].port == m.sessions[key].port
    ensures forall bindable :: AfterAllocate(Run(m, es), key, bindable) == Run(m, es)
    decreases |es|
  {
    if es != [] {
      PortStaysUntilClosed(m, es[..|es| - 1], key);
      assert es[|es| - 1] != CloseSession(key);
    }
  }

  /** What a failed call leaves for the next one. */
  lemma AfterFailure(m: Manager, key: string, bindable: set<nat>)
    requires Inv(m) && key !in AfterAllocate(m, key, bindable).sessions
    ensures var n := AfterAllocate(m, key, bindable);
            var free := FreePorts(m, bindable);
            && Inv(n) && n.sessions == m.sessions && FreePorts(n, bindable) == free
            && (free == {} || free == {n.nextPort})
  {
    var free := FreePorts(m, bindable);
    AllocateKeeps(m, key, bindable);
    FailsExactly(m.nextPort, free);
    SearchFinds(m.nextPort, free);
    if free != {} {
      assert free == {m.nextPort - 1};
    }
  }

  /** A free port at the counter is taken at the first try. */
  lemma FirstTry(n: Manager, key: string, bindable: set<nat>)
    requires Inv(n) && key !in n.sessions && n.nextPort in FreePorts(n, bindable)
    ensures var after := AfterAllocate(n, key, bindable).sessions;
            key in after && after[key].port == n.nextPort
  {
    SearchFinds(n.nextPort, FreePorts(n, bindable));
  }

  /** Two failures in a row, against the same bindable ports and with nothing
      closed in between, mean that no port of the range is free: if one was,
      the second call takes it at its first try. */
  lemma TwoFailuresMeanNoneFree(m: Manager, key: string, other: string, bindable: set<nat>)
    requires Inv(m) && key !in AfterAllocate(m, key, bindable).sessions && other !in m.sessions
    ensures var n := AfterAllocate(m, key, bindable);
            var free := FreePorts(m, bindable);
            && n.sessions == m.sessions
            && (other !in AfterAllocate(n, other, bindable).sessions <==> free == {})
            && (free != {} ==>
                  free == {n.nextPort} && AfterAllocate(n, other, bindable).sessions[other].port == n.nextPort)
  {
    AfterFailure(m, key, bindable);
    var n := AfterAllocate(m, key, bindable);
    if FreePorts(m, bindable) == {} {
      FailsExactly(n.nextPort, {});
    } else {
      FirstTry(n, other, bindable);
    }
  }
}
