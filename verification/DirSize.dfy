/** Bounded directory sizing: an explicit-stack walk that counts every file
    below a root once, and the removal of nested inputs before summing. */
module DirSize {
  import opened Basics
  import opened Paths

  /** What a directory listing says of an entry: a file whose metadata can be
      read or not, a directory that can be listed or not, a symbolic link, or
      an entry whose type cannot be read. */
  datatype Kind = File(size: nat) | Opaque | Dir(readable: bool) | Symlink | Untyped

  /** The file system, every path without links. */
  type Tree = map<Path, Kind>

  function Entries(fs: Tree, dir: Path): set<Path> {
    set p | p in fs && |p| == |dir| + 1 && dir <= p
  }

  /** Every directory from `from` down to the parent of `p` can be listed. */
  ghost predicate Listed(fs: Tree, from: Path, p: Path) {
    from <= p && forall k :: |from| <= k < |p| ==> p[..k] in fs && fs[p[..k]] == Dir(true)
  }

  /** The files a walk from `root` counts. */
  ghost function Counted(fs: Tree, root: Path): set<Path> {
    set p | p in fs && fs[p].File? && p != root && Listed(fs, root, p)
  }

  function Size(fs: Tree, p: Path): nat {
    if p in fs && fs[p].File? then fs[p].size else 0
  }

  ghost function Total(fs: Tree, s: set<Path>): nat {
    if s == {} then 0
    else
      var p :| p in s;
      Size(fs, p) + Total(fs, s - {p})
  }

  lemma {:induction false} TotalWithout(fs: Tree, s: set<Path>, p: Path)
    requires p in s
    ensures Total(fs, s) == Size(fs, p) + Total(fs, s - {p})
    decreases |s|
  {
    var q :| q in s && Total(fs, s) == Size(fs, q) + Total(fs, s - {q});
    if p != q {
      TotalWithout(fs, s - {q}, p);
      TotalWithout(fs, s - {p}, q);
      assert s - {q} - {p} == s - {p} - {q};
    }
  }

  lemma {:induction false} TotalUnion(fs: Tree, s: set<Path>, t: set<Path>)
    requires s !! t
    ensures Total(fs, s + t) == Total(fs, s) + Total(fs, t)
    decreases |s|
  {
    if s == {} {
      assert s + t == t;
    } else {
      var p :| p in s;
      TotalWithout(fs, s, p);
      TotalWithout(fs, s + t, p);
      assert s + t - {p} == (s - {p}) + t;
      TotalUnion(fs, s - {p}, t);
    }
  }

  function Saturated(n: nat): nat {
    if n > U64_MAX then U64_MAX else n
  }

  // ------------------------------------------------------------- the frontier

  /** Some path of `frontier` is `p` or an ancestor of it. */
  ghost predicate Below(frontier: set<Path>, p: Path) {
    exists k :: 0 <= k <= |p| && p[..k] in frontier
  }

  /** What is still to be walked: no path inside another, each reached from
      the root through directories that were listed. */
  ghost predicate Frontier(fs: Tree, root: Path, frontier: set<Path>) {
    && (forall f :: f in frontier ==> f in fs && Listed(fs, root, f))
    && (forall f, g :: f in frontier && g in frontier && f <= g ==> f == g)
  }

  /** The counted files that the frontier no longer covers. */
  ghost function Done(fs: Tree, root: Path, frontier: set<Path>): set<Path> {
    set p | p in Counted(fs, root) && !Below(frontier, p)
  }

  ghost function Left(fs: Tree, frontier: set<Path>): set<Path> {
    set p | p in fs && Below(frontier, p)
  }

  lemma BelowRemoved(fs: Tree, root: Path, frontier: set<Path>, f: Path, p: Path)
    requires Frontier(fs, root, frontier) && f in frontier
    ensures Below(frontier, p) <==> Below(frontier - {f}, p) || f <= p
    ensures f <= p ==> !Below(frontier - {f}, p)
  {
    if Below(frontier, p) {
      var k :| 0 <= k <= |p| && p[..k] in frontier;
      if p[..k] != f {
        assert p[..k] in frontier - {f};
      }
    }
    if f <= p {
      assert p[..|f|] == f;
      forall k | 0 <= k <= |p| ensures p[..k] !in frontier - {f} {
        PrefixesNest(p, k, f);
      }
    }
  }

  lemma PrefixesNest(p: Path, k: nat, f: Path)
    requires k <= |p| && f <= p
    ensures p[..k] <= f || f <= p[..k]
  {
  }

  /** Leaving `f` out of the frontier completes the files at or below it. */
  lemma Complete(fs: Tree, root: Path, frontier: set<Path>, f: Path)
    requires Frontier(fs, root, frontier) && f in frontier
    ensures Frontier(fs, root, frontier - {f})
    ensures Done(fs, root, frontier - {f}) == Done(fs, root, frontier) + (set p | p in Counted(fs, root) && f <= p)
    ensures Done(fs, root, frontier) !! (set p | p in Counted(fs, root) && f <= p)
    ensures Left(fs, frontier - {f}) < Left(fs, frontier)
  {
    forall p ensures Below(frontier, p) <==> Below(frontier - {f}, p) || f <= p {
      BelowRemoved(fs, root, frontier, f, p);
    }
    BelowRemoved(fs, root, frontier, f, f);
    assert f[..|f|] == f;
    forall p | p in Left(fs, frontier - {f}) ensures p in Left(fs, frontier) {
    }
    assert f in Left(fs, frontier);
    forall p | f <= p ensures !Below(frontier - {f}, p) {
      BelowRemoved(fs, root, frontier, f, p);
    }
  }

  /** A popped directory that can be listed is replaced by its entries. */
  lemma Expand(fs: Tree, root: Path, frontier: set<Path>, d: Path)
    requires Frontier(fs, root, frontier) && d in frontier && fs[d] == Dir(true)
    ensures var next := frontier - {d} + Entries(fs, d);
            && Frontier(fs, root, next)
            && Done(fs, root, next) == Done(fs, root, frontier)
            && Left(fs, next) < Left(fs, frontier)
            && (frontier - {d}) !! Entries(fs, d)
  {
    var next := frontier - {d} + Entries(fs, d);
    forall e | e in Entries(fs, d) ensures Listed(fs, root, e) && e != d && d <= e && e !in frontier {
      assert e[..|d|] == d;
      forall k | |root| <= k < |e| ensures e[..k] in fs && fs[e[..k]] == Dir(true) {
        if k < |d| {
          assert e[..k] == d[..k];
        }
      }
    }
    forall f, g | f in next && g in next && f <= g ensures f == g {
      NoNesting(fs, root, frontier, d, f, g);
    }
    forall p ensures Below(next, p) <==> Below(frontier, p) && !(p == d) && !(d <= p && p[..|d| + 1] !in fs) {
      ExpandBelow(fs, root, frontier, d, p);
    }
    forall p | p in Counted(fs, root) && Below(frontier, p) ensures Below(next, p) {
      if d <= p && |p| > |d| {
        if |p| > |d| + 1 {
          assert p[..|d| + 1] in fs;
        } else {
          assert p[..|d| + 1] == p;
        }
      }
      assert p != d;
      ExpandBelow(fs, root, frontier, d, p);
    }
    assert d[..|d|] == d;
    assert d in Left(fs, frontier) && d !in Left(fs, next);
  }

  lemma NoNesting(fs: Tree, root: Path, frontier: set<Path>, d: Path, f: Path, g: Path)
    requires Frontier(fs, root, frontier) && d in frontier && f <= g
    requires f in frontier - {d} || f in Entries(fs, d)
    requires g in frontier - {d} || g in Entries(fs, d)
    ensures f == g
  {
    if g in Entries(fs, d) {
      PrefixesNest(g, |f|, d);
    }
  }

  lemma ExpandBelow(fs: Tree, root: Path, frontier: set<Path>, d: Path, p: Path)
    requires Frontier(fs, root, frontier) && d in frontier
    ensures var next := frontier - {d} + Entries(fs, d);
            Below(next, p) <==> Below(frontier, p) && !(p == d) && !(d <= p && p[..|d| + 1] !in fs)
  {
    var next := frontier - {d} + Entries(fs, d);
    BelowRemoved(fs, root, frontier, d, p);
    if Below(next, p) {
      var k :| 0 <= k <= |p| && p[..k] in next;
      if p[..k] in frontier - {d} {
        assert Below(frontier - {d}, p);
      } else {
        assert p[..k] in Entries(fs, d) && p[..k][..|d|] == d == p[..|d|];
        assert p[..|d| + 1] == p[..k];
      }
    }
    if Below(frontier - {d}, p) {
      var k :| 0 <= k <= |p| && p[..k] in frontier - {d};
      assert p[..k] in next;
    } else if d <= p && p != d && p[..|d| + 1] in fs {
      assert p[..|d| + 1] in Entries(fs, d);
    }
  }

  // ----------------------------------------------------------------- the walk

  /** A deadline, as what each look at the clock says. */
  datatype Deadline = Never | At(late: nat -> bool)

  const CHECK_EVERY: nat := 512
  const U32: nat := 0x1_0000_0000

  /** `u32` wrapping increment. */
  function Bump(entriesSeen: nat): nat {
    (entriesSeen + 1) % U32
  }

  predicate LooksAt(entriesSeen: nat, deadline: Deadline) {
    entriesSeen % CHECK_EVERY == 0 && deadline.At?
  }

  /** No look at the clock so far said that the deadline has passed. */
  ghost predicate InTime(deadline: Deadline, ticks0: nat, ticks: nat) {
    ticks0 <= ticks && (deadline.At? ==> forall k :: ticks0 <= k < ticks ==> !deadline.late(k))
  }

  ghost predicate Expired(deadline: Deadline, ticks0: nat, ticks: nat) {
    ticks0 < ticks && deadline.At? && deadline.late(ticks - 1)
  }

  /** What a walk from `root` counts, links in `root` itself being resolved. */
  ghost function CountedUnder(fs: Tree, canon: Canon, root: Path): set<Path> {
    var target := canon(root);
    if target.Some? && target.value in fs && fs[target.value].Dir? then Counted(fs, target.value) else {}
  }

  /** Sums the files below `path`, listing entries in whatever order the file
      system returns them. `path` may lead through links, nothing below it is
      followed. `ticks` counts the looks at the clock. */
  method DirSizeBounded(fs: Tree, canon: Canon, path: Path, deadline: Deadline, ticks0: nat)
      returns (size: Option<nat>, ticks: nat)
    ensures size.Some? ==> size.value == Saturated(Total(fs, CountedUnder(fs, canon, path)))
    ensures size.Some? ==> InTime(deadline, ticks0, ticks)
    ensures size.Some? ==> ticks == ticks0 + Looks(fs, canon, path, deadline)
    ensures size.None? ==> Expired(deadline, ticks0, ticks) && ticks <= ticks0 + Looks(fs, canon, path, deadline)
  {
    ticks := ticks0;
    if canon(path).None? || canon(path).value !in fs || !fs[canon(path).value].Dir? {
      return Some(0), ticks;
    }
    var root := canon(path).value;
    var total: nat := 0;
    var stack := [root];
    var entriesSeen: nat := 0;
    var expired := false;
    ghost var frontier := {root};
    StartWalking(fs, root);
    SeenAtTheStart(fs, root);
    while stack != []
      invariant Walking(fs, root, frontier, stack, {}, total)
      invariant Counting(fs, root, frontier, stack, entriesSeen, deadline, ticks - ticks0)
      invariant InTime(deadline, ticks0, ticks)
      decreases Left(fs, frontier)
    {
      var dir := stack[|stack| - 1];
      Pop(fs, root, frontier, stack, total);
      PopSeesNothing(fs, root, frontier, stack, total);
      stack := stack[..|stack| - 1];
      var entries := if fs[dir] == Dir(true) then Entries(fs, dir) else {};
      frontier := frontier - {dir} + entries;
      stack, total, entriesSeen, ticks, expired, frontier :=
        ListEntries(fs, root, frontier, stack, entries, total, entriesSeen, deadline, ticks0, ticks);
      if expired {
        return None, ticks;
      }
    }
    StopWalking(fs, root, frontier, total);
    SeenAtTheEnd(fs, root, frontier);
    return Some(total), ticks;
  }

  /** The inner loop: classifies the entries of one listed directory. */
  method ListEntries(fs: Tree, ghost root: Path, ghost frontier0: set<Path>, stack0: seq<Path>, entries0: set<Path>,
                     total0: nat, entriesSeen0: nat, deadline: Deadline, ghost ticks0: nat, ticks1: nat)
      returns (stack: seq<Path>, total: nat, entriesSeen: nat, ticks: nat, expired: bool, ghost frontier: set<Path>)
    requires Walking(fs, root, frontier0, stack0, entries0, total0) && InTime(deadline, ticks0, ticks1)
    requires Counting(fs, root, frontier0, stack0, entriesSeen0, deadline, ticks1 - ticks0)
    ensures !expired ==> Walking(fs, root, frontier, stack, {}, total) && InTime(deadline, ticks0, ticks)
    ensures !expired ==> Left(fs, frontier) <= Left(fs, frontier0)
    ensures !expired ==> Counting(fs, root, frontier, stack, entriesSeen, deadline, ticks - ticks0)
    ensures expired ==> Expired(deadline, ticks0, ticks) && ticks - ticks0 <= |Reached(fs, root)| / 512
  {
    stack, total, entriesSeen, ticks, expired, frontier := stack0, total0, entriesSeen0, ticks1, false, frontier0;
    var entries := entries0;
    ghost var at := State(frontier, stack, entries, total, entriesSeen, ticks);
    while entries != {}
      invariant at == State(frontier, stack, entries, total, entriesSeen, ticks) && !expired
      invariant Listing(fs, root, Left(fs, frontier0), deadline, ticks0, at)
      decreases entries
    {
      var entry :| entry in entries;
      OneEntry(fs, root, Left(fs, frontier0), deadline, ticks0, at, entry);
      stack, total, entriesSeen, ticks, expired := Visit(fs, entry, stack, total, entriesSeen, ticks, deadline, at);
      if expired {
        return;
      }
      entries := entries - {entry};
      at := AfterEntry(fs, deadline, at, entry);
      frontier := at.frontier;
    }
  }

  /** The body of the inner loop. */
  method Visit(fs: Tree, entry: Path, stack0: seq<Path>, total0: nat, entriesSeen0: nat, ticks0: nat,
               deadline: Deadline, ghost at: State)
      returns (stack: seq<Path>, total: nat, entriesSeen: nat, ticks: nat, expired: bool)
    requires entry in fs
    requires stack0 == at.stack && total0 == at.total && entriesSeen0 == at.entriesSeen && ticks0 == at.ticks
    ensures var next := AfterEntry(fs, deadline, at, entry);
            && ticks == next.ticks
            && (expired <==> ticks > ticks0 && deadline.late(ticks0))
            && (!expired ==> stack == next.stack && total == next.total && entriesSeen == next.entriesSeen)
  {
    stack, total, entriesSeen, ticks, expired := stack0, total0, Bump(entriesSeen0), ticks0, false;
    if LooksAt(entriesSeen, deadline) {
      ticks := ticks + 1;
      if deadline.late(ticks - 1) {
        expired := true;
        return;
      }
    }
    match fs[entry] {
      case Dir(_) => stack := stack + [entry];
      case File(size) => total := SaturatingAdd(total, size);
      case _ =>
    }
  }

  /** Where the inner loop is. */
  datatype State = State(frontier: set<Path>, stack: seq<Path>, entries: set<Path>, total: nat, entriesSeen: nat,
                         ticks: nat)

  function AfterEntry(fs: Tree, deadline: Deadline, s: State, entry: Path): State
    requires entry in fs
  {
    var next := Bump(s.entriesSeen);
    var looked := s.(entriesSeen := next, ticks := s.ticks + if LooksAt(next, deadline) then 1 else 0,
                     entries := s.entries - {entry});
    match fs[entry]
    case Dir(_) => looked.(stack := s.stack + [entry])
    case File(size) => looked.(frontier := s.frontier - {entry}, total := SaturatingAdd(s.total, size))
    case _ => looked.(frontier := s.frontier - {entry})
  }

  ghost predicate Listing(fs: Tree, root: Path, left: set<Path>, deadline: Deadline, ticks0: nat, s: State) {
    && Walking(fs, root, s.frontier, s.stack, s.entries, s.total)
    && Counting(fs, root, s.frontier, s.stack, s.entriesSeen, deadline, s.ticks - ticks0)
    && InTime(deadline, ticks0, s.ticks) && Left(fs, s.frontier) <= left
  }

  // ------------------------------------------------------ looking at the clock

  /** Every entry that a walk from `root` comes to. */
  ghost function Reached(fs: Tree, root: Path): set<Path> {
    set p | p in fs && p != root && Listed(fs, root, p)
  }

  /** How often a walk looks at the clock: once for every 512 entries. */
  ghost function Looks(fs: Tree, canon: Canon, path: Path, deadline: Deadline): nat {
    var target := canon(path);
    if deadline.At? && target.Some? && target.value in fs && fs[target.value].Dir?
    then |Reached(fs, target.value)| / 512 else 0
  }

  /** The entries seen so far: what waits on the stack, and what is behind the
      frontier. */
  ghost function Seen(fs: Tree, root: Path, frontier: set<Path>, stack: seq<Path>): set<Path> {
    set p | p in Reached(fs, root) && (p in stack || !Below(frontier, p))
  }

  ghost predicate Counting(fs: Tree, root: Path, frontier: set<Path>, stack: seq<Path>, entriesSeen: nat,
                           deadline: Deadline, looks: int) {
    var n := |Seen(fs, root, frontier, stack)|;
    entriesSeen == n % U32 && looks == if deadline.At? then n / 512 else 0
  }

  lemma SeenAtTheEnd(fs: Tree, root: Path, frontier: set<Path>)
    requires frontier == {}
    ensures Seen(fs, root, frontier, []) == Reached(fs, root)
  {
  }

  lemma SeenAtTheStart(fs: Tree, root: Path)
    ensures Seen(fs, root, {root}, [root]) == {}
  {
    forall p | p in Reached(fs, root) ensures Below({root}, p) {
      assert p[..|root|] == root;
    }
  }

  /** Popping a directory puts its entries in its place: nothing new is seen. */
  lemma PopSeesNothing(fs: Tree, root: Path, frontier: set<Path>, stack: seq<Path>, total: nat)
    requires Walking(fs, root, frontier, stack, {}, total) && stack != []
    ensures var dir := stack[|stack| - 1];
            var entries := if fs[dir] == Dir(true) then Entries(fs, dir) else {};
            Seen(fs, root, frontier - {dir} + entries, stack[..|stack| - 1]) == Seen(fs, root, frontier, stack)
  {
    var dir := stack[|stack| - 1];
    var rest := stack[..|stack| - 1];
    var entries := if fs[dir] == Dir(true) then Entries(fs, dir) else {};
    assert forall p :: p in stack <==> p == dir || p in rest;
    assert dir in frontier;
    forall p | p in Reached(fs, root)
      ensures p in rest || !Below(frontier - {dir} + entries, p) <==> p in stack || !Below(frontier, p)
    {
      ReachedBelow(fs, root, frontier, dir, p);
      if fs[dir] == Dir(true) {
        ExpandBelow(fs, root, frontier, dir, p);
      } else {
        assert frontier - {dir} + entries == frontier - {dir};
        BelowRemoved(fs, root, frontier, dir, p);
      }
      assert dir[..|dir|] == dir;
    }
  }

  /** What is reached below a directory is reached through an entry of it, and
      the directory can be listed. */
  lemma ReachedBelow(fs: Tree, root: Path, frontier: set<Path>, dir: Path, p: Path)
    requires Frontier(fs, root, frontier) && dir in frontier && p in Reached(fs, root)
    ensures dir <= p && dir != p ==> fs[dir] == Dir(true) && p[..|dir| + 1] in fs
  {
    if dir <= p && dir != p {
      assert p[..|dir|] == dir;
      if |dir| + 1 == |p| {
        assert p[..|dir| + 1] == p;
      }
    }
  }

  /** Classifying an entry sees that one. */
  lemma SeesOne(fs: Tree, root: Path, frontier: set<Path>, stack: seq<Path>, entries: set<Path>, total: nat,
                entry: Path)
    requires Walking(fs, root, frontier, stack, entries, total) && entry in entries
    ensures entry in Reached(fs, root) && entry !in Seen(fs, root, frontier, stack)
    ensures entry in fs
    ensures if fs[entry].Dir?
            then Seen(fs, root, frontier, stack + [entry]) == Seen(fs, root, frontier, stack) + {entry}
            else Seen(fs, root, frontier - {entry}, stack) == Seen(fs, root, frontier, stack) + {entry}
  {
    assert entry in frontier && entry !in stack && entry[..|entry|] == entry;
    if !fs[entry].Dir? {
      forall p | p in Reached(fs, root)
        ensures !Below(frontier - {entry}, p) <==> !Below(frontier, p) || p == entry
      {
        BelowRemoved(fs, root, frontier, entry, p);
        ReachedBelow(fs, root, frontier, entry, p);
      }
    }
  }

  /** One entry more, in the wrapping counter and in the looks at the clock. */
  lemma CountOne(fs: Tree, root: Path, frontier: set<Path>, stack: seq<Path>, entry: Path, entriesSeen: nat,
                 deadline: Deadline, looks: int)
    requires Counting(fs, root, frontier, stack, entriesSeen, deadline, looks)
    requires entry in Reached(fs, root) && entry !in Seen(fs, root, frontier, stack)
    ensures var n := |Seen(fs, root, frontier, stack) + {entry}|;
            var next := Bump(entriesSeen);
            && next == n % U32
            && looks + (if LooksAt(next, deadline) then 1 else 0) ==
                 (if deadline.At? then n / 512 else 0)
            && n / 512 <= |Reached(fs, root)| / 512
  {
    var seen := Seen(fs, root, frontier, stack);
    SmallerSet(seen + {entry}, Reached(fs, root));
    Wraps(|seen|);
  }

  /** What one entry does to the whole state of the walk, and to the clock. */
  lemma OneEntry(fs: Tree, root: Path, left: set<Path>, deadline: Deadline, ticks0: nat, s: State, entry: Path)
    requires Listing(fs, root, left, deadline, ticks0, s) && entry in s.entries
    ensures entry in fs
    ensures var t := AfterEntry(fs, deadline, s, entry);
            if t.ticks > s.ticks && deadline.late(s.ticks)
            then Expired(deadline, ticks0, t.ticks) && t.ticks - ticks0 <= |Reached(fs, root)| / 512
            else Listing(fs, root, left, deadline, ticks0, t)
  {
    Classify(fs, root, s.frontier, s.stack, s.entries, s.total, entry);
    SeesOne(fs, root, s.frontier, s.stack, s.entries, s.total, entry);
    CountOne(fs, root, s.frontier, s.stack, entry, s.entriesSeen, deadline, s.ticks - ticks0);
  }

  lemma {:induction false} SmallerSet(s: set<Path>, t: set<Path>)
    requires s <= t
    ensures |s| <= |t|
    decreases |s|
  {
    if s != {} {
      var p :| p in s;
      SmallerSet(s - {p}, t - {p});
    }
  }

  lemma Wraps(n: nat)
    ensures (n % U32 + 1) % U32 == (n + 1) % U32
    ensures (n + 1) % U32 % 512 == 0 <==> (n + 1) % 512 == 0
    ensures (n + 1) / 512 == n / 512 + if (n + 1) % 512 == 0 then 1 else 0
  {
    NextRemainder(n / U32, n % U32);
    RemainderIn512((n + 1) / U32, (n + 1) % U32);
    NextIn512(n / 512, n % 512);
  }

  lemma NextRemainder(q: nat, r: nat)
    requires r < U32
    ensures (U32 * q + r + 1) % U32 == (r + 1) % U32
  {
    if r + 1 == U32 {
      assert U32 * q + r + 1 == U32 * (q + 1);
    }
  }

  lemma RemainderIn512(q: nat, r: nat)
    ensures (U32 * q + r) % 512 == r % 512
  {
    RemainderIs(U32 * q + r, 8388608 * q + r / 512, r % 512);
  }

  lemma RemainderIs(n: nat, q: nat, r: nat)
    requires n == 512 * q + r && r < 512
    ensures n % 512 == r
  {
  }

  lemma NextIn512(q: nat, r: nat)
    requires r < 512
    ensures (512 * q + r + 1) / 512 == q + if (512 * q + r + 1) % 512 == 0 then 1 else 0
  {
    if r == 511 {
      assert 512 * q + r + 1 == 512 * (q + 1);
    }
  }

  lemma StartWalking(fs: Tree, root: Path)
    requires root in fs && fs[root].Dir?
    ensures Walking(fs, root, {root}, [root], {}, 0)
  {
    forall p | p in Counted(fs, root) ensures Below({root}, p) {
      assert p[..|root|] == root;
    }
    assert Done(fs, root, {root}) == {};
  }

  lemma StopWalking(fs: Tree, root: Path, frontier: set<Path>, total: nat)
    requires Walking(fs, root, frontier, [], {}, total)
    ensures total == Saturated(Total(fs, Counted(fs, root)))
  {
    assert frontier == {};
    assert Done(fs, root, frontier) == Counted(fs, root);
  }

  /** The walk's state: the directories on the stack and the entries still to
      be classified are the frontier, and `total` is what lies behind it. */
  ghost predicate Walking(fs: Tree, root: Path, frontier: set<Path>, stack: seq<Path>, entries: set<Path>, total: nat) {
    && Frontier(fs, root, frontier) && NoRepeats(stack)
    && (forall p :: p in frontier <==> p in stack || p in entries)
    && (forall p :: p in stack ==> p in fs && fs[p].Dir? && p !in entries)
    && root !in entries
    && total == Saturated(Total(fs, Done(fs, root, frontier)))
  }

  lemma Pop(fs: Tree, root: Path, frontier: set<Path>, stack: seq<Path>, total: nat)
    requires Walking(fs, root, frontier, stack, {}, total) && stack != []
    ensures var dir := stack[|stack| - 1];
            var entries := if fs[dir] == Dir(true) then Entries(fs, dir) else {};
            var next := frontier - {dir} + entries;
            Walking(fs, root, next, stack[..|stack| - 1], entries, total) && Left(fs, next) < Left(fs, frontier)
  {
    var dir := stack[|stack| - 1];
    var rest := stack[..|stack| - 1];
    assert forall p :: p in stack <==> p == dir || p in rest;
    assert dir in frontier;
    assert Listed(fs, root, dir);
    if fs[dir] == Dir(true) {
      Expand(fs, root, frontier, dir);
    } else {
      Unlisted(fs, root, frontier, dir);
      assert frontier - {dir} + {} == frontier - {dir};
    }
  }

  lemma Classify(fs: Tree, root: Path, frontier: set<Path>, stack: seq<Path>, entries: set<Path>, total: nat,
      entry: Path)
    requires Walking(fs, root, frontier, stack, entries, total) && entry in entries
    ensures entry in fs
    ensures match fs[entry]
            case Dir(_) => Walking(fs, root, frontier, stack + [entry], entries - {entry}, total)
            case File(size) =>
              Walking(fs, root, frontier - {entry}, stack, entries - {entry}, SaturatingAdd(total, size))
              && Left(fs, frontier - {entry}) < Left(fs, frontier)
            case _ =>
              Walking(fs, root, frontier - {entry}, stack, entries - {entry}, total)
              && Left(fs, frontier - {entry}) < Left(fs, frontier)
  {
    assert entry in frontier;
    match fs[entry]
    case Dir(_) =>
      assert forall p :: p in stack + [entry] <==> p in stack || p == entry;
    case File(_) => FileDone(fs, root, frontier, entry);
    case _ => Skipped(fs, root, frontier, entry);
  }

  lemma Unlisted(fs: Tree, root: Path, frontier: set<Path>, d: Path)
    requires Frontier(fs, root, frontier) && d in frontier && fs[d] == Dir(false)
    ensures Frontier(fs, root, frontier - {d})
    ensures Done(fs, root, frontier - {d}) == Done(fs, root, frontier)
    ensures Left(fs, frontier - {d}) < Left(fs, frontier)
  {
    Complete(fs, root, frontier, d);
    forall p | p in Counted(fs, root) ensures !(d <= p) {
      NotThrough(fs, root, d, p);
    }
  }

  /** A counted file has only listed directories above it. */
  lemma NotThrough(fs: Tree, root: Path, f: Path, p: Path)
    requires p in Counted(fs, root) && root <= f && f in fs && fs[f] != Dir(true)
    ensures f <= p ==> f == p
  {
    assert f <= p ==> p[..|f|] == f;
  }

  lemma Skipped(fs: Tree, root: Path, frontier: set<Path>, f: Path)
    requires Frontier(fs, root, frontier) && f in frontier && !fs[f].Dir? && !fs[f].File?
    ensures Frontier(fs, root, frontier - {f})
    ensures Done(fs, root, frontier - {f}) == Done(fs, root, frontier)
    ensures Left(fs, frontier - {f}) < Left(fs, frontier)
  {
    Complete(fs, root, frontier, f);
    forall p | p in Counted(fs, root) ensures !(f <= p) {
      NotThrough(fs, root, f, p);
    }
  }

  lemma FileDone(fs: Tree, root: Path, frontier: set<Path>, f: Path)
    requires Frontier(fs, root, frontier) && f in frontier && fs[f].File? && f != root
    ensures Frontier(fs, root, frontier - {f})
    ensures Saturated(Total(fs, Done(fs, root, frontier - {f}))) ==
              SaturatingAdd(Saturated(Total(fs, Done(fs, root, frontier))), fs[f].size)
    ensures Left(fs, frontier - {f}) < Left(fs, frontier)
  {
    Complete(fs, root, frontier, f);
    var below := set p | p in Counted(fs, root) && f <= p;
    forall p | p in below ensures p == f {
      NotThrough(fs, root, f, p);
    }
    assert f in Counted(fs, root);
    assert below == {f};
    TotalUnion(fs, Done(fs, root, frontier), {f});
    TotalWithout(fs, {f}, f);
    assert {f} - {f} == {};
  }

  // ------------------------------------------------------------ nested inputs

  function Canonical(canon: Canon, p: Path): Path {
    if canon(p).Some? then canon(p).value else p
  }

  function Canonicals(canon: Canon, paths: seq<Path>): (all: seq<Path>)
    ensures |all| == |paths| && forall i :: 0 <= i < |paths| ==> all[i] == Canonical(canon, paths[i])
  {
    seq(|paths|, i requires 0 <= i < |paths| => Canonical(canon, paths[i]))
  }

  ghost predicate Minimal(s: seq<Path>, p: Path) {
    p in s && forall k :: 0 <= k < |p| ==> p[..k] !in s
  }

  /** Some path of `s` is `p` or an ancestor of it. */
  ghost predicate Covered(s: seq<Path>, p: Path) {
    exists k :: 0 <= k <= |p| && p[..k] in s
  }

  /** The shortest covering ancestor is minimal. */
  lemma {:induction false} CoveredByMinimal(s: seq<Path>, p: Path, k: nat)
    requires k <= |p| && p[..k] in s
    ensures exists j :: 0 <= j <= k && Minimal(s, p[..j])
    decreases k
  {
    if j :| 0 <= j < k && p[..j] in s {
      CoveredByMinimal(s, p, j);
    } else {
      assert forall j :: 0 <= j < k ==> p[..k][..j] == p[..j];
      assert Minimal(s, p[..k]);
    }
  }

  /** Drops every path inside another, and duplicates. Only kept ancestors are
      looked up; what is kept are exactly the minimal paths. */
  method DedupeNestedPaths(paths: seq<Path>, canon: Canon) returns (kept: seq<Path>)
    ensures forall p :: p in kept <==> Minimal(Canonicals(canon, paths), p)
    ensures NoRepeats(kept)
  {
    var canonical := Dedup(Sort(Canonicals(canon, paths)));
    SortSorts(Canonicals(canon, paths));
    DedupSorted(Sort(Canonicals(canon, paths)));
    kept := [];
    var seen: set<Path> := {};
    for n := 0 to |canonical|
      invariant forall p :: p in kept <==> Minimal(canonical[..n], p)
      invariant forall p :: p in seen <==> p in kept
      invariant NoRepeats(kept)
    {
      var path := canonical[n];
      KeptWithOneMore(canonical, n, kept);
      var nested := exists k :: 0 <= k < |path| && path[..k] in seen;
      if !nested {
        seen := seen + {path};
        kept := kept + [path];
      }
    }
    assert canonical[..|canonical|] == canonical;
    SameMinimals(canonical, Canonicals(canon, paths));
  }

  lemma KeptWithOneMore(canonical: seq<Path>, n: nat, kept: seq<Path>)
    requires Sorted(canonical) && NoRepeats(canonical) && n < |canonical|
    requires forall p :: p in kept <==> Minimal(canonical[..n], p)
    ensures var path := canonical[n];
            && path !in kept
            && forall p :: Minimal(canonical[..n + 1], p) <==>
                 p in kept || (p == path && !exists k :: 0 <= k < |path| && path[..k] in kept)
  {
    KeepsMinimal(canonical, n);
    assert canonical[..n + 1] == canonical[..n] + [canonical[n]];
  }

  lemma SameMinimals(s: seq<Path>, t: seq<Path>)
    requires forall p :: p in s <==> p in t
    ensures forall p :: Minimal(s, p) <==> Minimal(t, p)
  {
  }

  /** No kept path is inside another, and every input has itself or an ancestor
      kept. */
  lemma MinimalPathsCover(s: seq<Path>, kept: seq<Path>)
    requires (forall p :: p in kept <==> Minimal(s, p)) && NoRepeats(kept)
    ensures NoneInside(kept)
    ensures forall p :: p in s ==> Covered(kept, p)
  {
    forall p, q | p in kept && q in kept && p <= q ensures p == q {
      assert q[..|p|] == p;
    }
    forall p | p in s ensures Covered(kept, p) {
      assert p[..|p|] == p;
      CoveredByMinimal(s, p, |p|);
    }
  }

  /** One more sorted path: it has an earlier ancestor exactly when it has an
      earlier minimal one, and it is an ancestor of nothing earlier. */
  lemma KeepsMinimal(canonical: seq<Path>, n: nat)
    requires Sorted(canonical) && NoRepeats(canonical) && n < |canonical|
    ensures var before, path := canonical[..n], canonical[n];
            var more := before + [path];
            && path !in before && !Minimal(before, path)
            && (forall p :: p != path ==> (Minimal(more, p) <==> Minimal(before, p)))
            && (Minimal(more, path) <==> !exists k :: 0 <= k < |path| && Minimal(before, path[..k]))
  {
    var before, path := canonical[..n], canonical[n];
    var more := before + [path];
    assert forall p :: p in more <==> p in before || p == path;
    forall p, k | p in before && 0 <= k < |p| ensures p[..k] != path {
      if p[..k] == path {
        AncestorSortsFirst(path, p);
        LeqAntisymmetric(path, p);
      }
    }
    if k :| 0 <= k < |path| && path[..k] in before {
      CoveredByMinimal(before, path, k);
    }
  }

  // ------------------------------------------------------------------ the sum

  ghost function CountedAmong(fs: Tree, canon: Canon, roots: seq<Path>): set<Path> {
    set p, i | 0 <= i < |roots| && p in CountedUnder(fs, canon, roots[i]) :: p
  }

  /** What resolving returns, it resolves to itself. */
  ghost predicate Resolves(canon: Canon) {
    forall p :: canon(p).Some? ==> canon(canon(p).value) == canon(p)
  }

  /** Every path resolves to itself or not at all. */
  ghost predicate AllResolved(canon: Canon, roots: seq<Path>) {
    forall p :: p in roots ==> canon(p).None? || canon(p) == Some(p)
  }

  /** Total bytes across `paths` within one shared deadline: what the walks
      from the kept paths count, or nothing at all. Unless a nested input is cut
      off from the kept one above it, that is what the walks from all inputs
      count; with listable directories, it is the files below the inputs. */
  method TotalSizeBounded(fs: Tree, paths: seq<Path>, canon: Canon, deadline: Deadline)
      returns (size: Option<nat>, ghost kept: seq<Path>, ticks: nat)
    requires Resolves(canon)
    ensures forall p :: p in kept <==> Minimal(Canonicals(canon, paths), p)
    ensures size.Some? ==> size.value == Saturated(Total(fs, CountedAmong(fs, canon, kept)))
    ensures size.Some? ==> InTime(deadline, 0, ticks) && ticks == AllLooks(fs, canon, kept, deadline)
    ensures LongPast(deadline) ==> (size.None? <==> AnyLook(fs, canon, kept, deadline))
    ensures size.Some? && NoneCutOff(fs, canon, Canonicals(canon, paths), kept) ==>
              size.value == Saturated(Total(fs, CountedAmong(fs, canon, Canonicals(canon, paths))))
    ensures size.Some? && AllListed(fs, canon, Canonicals(canon, paths)) ==>
              size.value == Saturated(Total(fs, FilesUnder(fs, Canonicals(canon, paths))))
    ensures size.None? ==> Expired(deadline, 0, ticks)
  {
    var roots := DedupeNestedPaths(paths, canon);
    kept := roots;
    WhatIsKept(fs, canon, paths, kept);
    size, ticks := SumOfWalks(fs, roots, canon, deadline);
  }

  lemma WhatIsKept(fs: Tree, canon: Canon, paths: seq<Path>, kept: seq<Path>)
    requires Resolves(canon) && NoRepeats(kept)
    requires forall p :: p in kept <==> Minimal(Canonicals(canon, paths), p)
    ensures NoneInside(kept) && AllResolved(canon, kept)
    ensures var inputs := Canonicals(canon, paths);
            && (NoneCutOff(fs, canon, inputs, kept) ==>
                  CountedAmong(fs, canon, kept) == CountedAmong(fs, canon, inputs))
            && (AllListed(fs, canon, inputs) ==> CountedAmong(fs, canon, kept) == FilesUnder(fs, inputs))
  {
    var inputs := Canonicals(canon, paths);
    MinimalPathsCover(inputs, kept);
    assert AllResolved(canon, inputs);
    KeptCountTheInputsExactly(fs, canon, inputs, kept);
    if AllListed(fs, canon, inputs) {
      KeptCountEveryFileOnce(fs, canon, inputs, kept);
    }
  }

  /** The loop over the kept paths. */
  method SumOfWalks(fs: Tree, roots: seq<Path>, canon: Canon, deadline: Deadline)
      returns (size: Option<nat>, ticks: nat)
    requires NoneInside(roots) && AllResolved(canon, roots)
    ensures size.Some? ==> size.value == Saturated(Total(fs, CountedAmong(fs, canon, roots)))
    ensures size.Some? ==> InTime(deadline, 0, ticks) && ticks == AllLooks(fs, canon, roots, deadline)
    ensures size.None? ==> Expired(deadline, 0, ticks) && ticks <= AllLooks(fs, canon, roots, deadline)
    ensures LongPast(deadline) ==> (size.None? <==> AnyLook(fs, canon, roots, deadline))
  {
    ticks := 0;
    var total: nat := 0;
    NoRoots(fs, canon, roots);
    for i := 0 to |roots|
      invariant total == Saturated(Total(fs, CountedAmong(fs, canon, roots[..i])))
      invariant InTime(deadline, 0, ticks) && ticks == AllLooks(fs, canon, roots[..i], deadline)
    {
      var one, after := DirSizeBounded(fs, canon, roots[i], deadline, ticks);
      ticks := after;
      LooksOfOneMore(fs, canon, roots, i, deadline);
      if one.None? {
        SomebodyLooked(fs, canon, roots, deadline, ticks);
        return None, ticks;
      }
      MinimalsDisjoint(fs, canon, roots, i);
      total := SaturatingAdd(total, one.value);
    }
    assert roots[..|roots|] == roots;
    NobodyLooked(fs, canon, roots, deadline, ticks);
    return Some(total), ticks;
  }

  /** The looks at the clock of all walks, each counting its entries anew. */
  ghost function AllLooks(fs: Tree, canon: Canon, roots: seq<Path>, deadline: Deadline): nat
    decreases |roots|
  {
    if roots == [] then 0
    else AllLooks(fs, canon, roots[..|roots| - 1], deadline) + Looks(fs, canon, roots[|roots| - 1], deadline)
  }

  lemma LooksOfOneMore(fs: Tree, canon: Canon, roots: seq<Path>, i: nat, deadline: Deadline)
    requires i < |roots|
    ensures AllLooks(fs, canon, roots[..i + 1], deadline) ==
              AllLooks(fs, canon, roots[..i], deadline) + Looks(fs, canon, roots[i], deadline)
    ensures AllLooks(fs, canon, roots[..i + 1], deadline) <= AllLooks(fs, canon, roots, deadline)
  {
    assert roots[..i + 1][..i] == roots[..i];
    LooksGrow(fs, canon, roots, i + 1, deadline);
  }

  lemma {:induction false} LooksGrow(fs: Tree, canon: Canon, roots: seq<Path>, n: nat, deadline: Deadline)
    requires n <= |roots|
    ensures AllLooks(fs, canon, roots[..n], deadline) <= AllLooks(fs, canon, roots, deadline)
    decreases |roots|
  {
    if n == |roots| {
      assert roots[..n] == roots;
    } else {
      assert roots[..|roots| - 1][..n] == roots[..n];
      LooksGrow(fs, canon, roots[..|roots| - 1], n, deadline);
    }
  }

  /** Whenever the clock is asked, it says that the deadline has passed. */
  ghost predicate LongPast(deadline: Deadline) {
    deadline.At? && forall k :: deadline.late(k)
  }

  /** Some walk comes to 512 entries or more. */
  ghost predicate AnyLook(fs: Tree, canon: Canon, roots: seq<Path>, deadline: Deadline) {
    exists i :: 0 <= i < |roots| && Looks(fs, canon, roots[i], deadline) > 0
  }

  lemma SomebodyLooked(fs: Tree, canon: Canon, roots: seq<Path>, deadline: Deadline, ticks: nat)
    requires Expired(deadline, 0, ticks) && ticks <= AllLooks(fs, canon, roots, deadline)
    ensures AnyLook(fs, canon, roots, deadline)
  {
    NobodyLooks(fs, canon, roots, deadline);
  }

  lemma NobodyLooked(fs: Tree, canon: Canon, roots: seq<Path>, deadline: Deadline, ticks: nat)
    requires InTime(deadline, 0, ticks) && ticks == AllLooks(fs, canon, roots, deadline)
    ensures LongPast(deadline) ==> !AnyLook(fs, canon, roots, deadline)
  {
    NobodyLooks(fs, canon, roots, deadline);
    if deadline.At? && ticks > 0 {
      assert !deadline.late(0);
    }
  }

  lemma {:induction false} NobodyLooks(fs: Tree, canon: Canon, roots: seq<Path>, deadline: Deadline)
    ensures AllLooks(fs, canon, roots, deadline) == 0 <==> !AnyLook(fs, canon, roots, deadline)
    decreases |roots|
  {
    if roots != [] {
      var last := |roots| - 1;
      NobodyLooks(fs, canon, roots[..last], deadline);
      assert forall i :: 0 <= i < last ==> roots[..last][i] == roots[i];
    }
  }

  lemma NoRoots(fs: Tree, canon: Canon, roots: seq<Path>)
    ensures Total(fs, CountedAmong(fs, canon, roots[..0])) == 0
  {
    assert CountedAmong(fs, canon, roots[..0]) == {};
  }

  ghost predicate NoneInside(roots: seq<Path>) {
    NoRepeats(roots) && forall p, q :: p in roots && q in roots && p <= q ==> p == q
  }

  lemma CommonDescendant(a: Path, b: Path, p: Path)
    requires a <= p
    ensures b <= p ==> a <= b || b <= a
  {
    if b <= p {
      assert p[..|a|] == a;
      PrefixesNest(p, |a|, b);
    }
  }

  lemma MinimalsDisjoint(fs: Tree, canon: Canon, roots: seq<Path>, i: nat)
    requires NoneInside(roots) && AllResolved(canon, roots) && i < |roots|
    ensures CountedAmong(fs, canon, roots[..i + 1]) ==
              CountedAmong(fs, canon, roots[..i]) + CountedUnder(fs, canon, roots[i])
    ensures Saturated(Total(fs, CountedAmong(fs, canon, roots[..i + 1]))) ==
              SaturatingAdd(Saturated(Total(fs, CountedAmong(fs, canon, roots[..i]))),
                            Saturated(Total(fs, CountedUnder(fs, canon, roots[i]))))
  {
    var before, under := CountedAmong(fs, canon, roots[..i]), CountedUnder(fs, canon, roots[i]);
    assert forall j :: 0 <= j < i ==> roots[..i + 1][j] == roots[j] && roots[..i][j] == roots[j];
    assert CountedAmong(fs, canon, roots[..i + 1]) == before + under by {
      forall p | p in under ensures p in CountedAmong(fs, canon, roots[..i + 1]) {
        assert roots[..i + 1][i] == roots[i];
      }
    }
    forall p | p in before ensures p !in under {
      var j :| 0 <= j < i && p in CountedUnder(fs, canon, roots[..i][j]);
      assert roots[j] in roots && roots[i] in roots && roots[j] != roots[i] && roots[j] <= p;
      CommonDescendant(roots[j], roots[i], p);
    }
    TotalUnion(fs, before, under);
  }

  // ------------------------------------------------- what leaving out costs

  /** Every input that counts anything by itself is reached from the kept path
      above it: that path resolves, and every directory between the two can be
      listed. */
  ghost predicate NoneCutOff(fs: Tree, canon: Canon, inputs: seq<Path>, kept: seq<Path>) {
    forall d, q :: d in inputs && q in kept && q <= d && CountedUnder(fs, canon, d) != {} ==>
      canon(q) == Some(q) && Listed(fs, q, d)
  }

  lemma CountedAmongHas(fs: Tree, canon: Canon, roots: seq<Path>, r: Path, p: Path)
    requires r in roots && p in CountedUnder(fs, canon, r)
    ensures p in CountedAmong(fs, canon, roots)
  {
    var i :| 0 <= i < |roots| && roots[i] == r;
  }

  /** A file counted below `d` is counted from `q` above it exactly if `q`
      resolves and the directories from `q` to `d` can be listed. */
  lemma ReachedFromAbove(fs: Tree, canon: Canon, q: Path, d: Path, p: Path)
    requires q <= d && canon(d) == Some(d) && (canon(q).None? || canon(q) == Some(q))
    requires p in CountedUnder(fs, canon, d)
    ensures p in CountedUnder(fs, canon, q) <==> canon(q) == Some(q) && Listed(fs, q, d)
  {
    assert p[..|d|] == d && d[..|q|] == q && p[..|q|] == q;
    assert forall k :: 0 <= k <= |d| ==> d[..k] == p[..k];
    if canon(q) == Some(q) && Listed(fs, q, d) && q != d {
      assert d[..|q|] in fs;
    }
  }

  /** Keeping only minimal inputs counts what the walks from all inputs would
      count, if and only if no input is cut off. */
  lemma KeptCountTheInputsExactly(fs: Tree, canon: Canon, inputs: seq<Path>, kept: seq<Path>)
    requires AllResolved(canon, inputs) && forall p :: p in kept <==> Minimal(inputs, p)
    ensures CountedAmong(fs, canon, kept) == CountedAmong(fs, canon, inputs) <==> NoneCutOff(fs, canon, inputs, kept)
  {
    var some, all := CountedAmong(fs, canon, kept), CountedAmong(fs, canon, inputs);
    forall p | p in some ensures p in all {
      var j :| 0 <= j < |kept| && p in CountedUnder(fs, canon, kept[j]);
      assert kept[j] in kept;
      CountedAmongHas(fs, canon, inputs, kept[j], p);
    }
    if NoneCutOff(fs, canon, inputs, kept) {
      forall p | p in all ensures p in some {
        var i :| 0 <= i < |inputs| && p in CountedUnder(fs, canon, inputs[i]);
        var d := inputs[i];
        var q := KeptAbove(inputs, kept, d);
        ReachedFromAbove(fs, canon, q, d, p);
        CountedAmongHas(fs, canon, kept, q, p);
      }
    }
    if some == all {
      forall d, q | d in inputs && q in kept && q <= d && CountedUnder(fs, canon, d) != {}
        ensures canon(q) == Some(q) && Listed(fs, q, d)
      {
        var p :| p in CountedUnder(fs, canon, d);
        CountedAmongHas(fs, canon, inputs, d, p);
        var j :| 0 <= j < |kept| && p in CountedUnder(fs, canon, kept[j]);
        assert kept[j] in kept;
        OneMinimalAbove(inputs, q, kept[j], p);
        ReachedFromAbove(fs, canon, q, d, p);
      }
    }
  }

  lemma KeptAbove(inputs: seq<Path>, kept: seq<Path>, d: Path) returns (q: Path)
    requires d in inputs && forall p :: p in kept <==> Minimal(inputs, p)
    ensures q in kept && q in inputs && q <= d
  {
    assert d[..|d|] == d;
    CoveredByMinimal(inputs, d, |d|);
    var k :| 0 <= k <= |d| && Minimal(inputs, d[..k]);
    q := d[..k];
  }

  lemma OneMinimalAbove(inputs: seq<Path>, q: Path, r: Path, p: Path)
    requires Minimal(inputs, q) && Minimal(inputs, r) && q <= p && r <= p
    ensures q == r
  {
    CommonDescendant(q, r, p);
    assert q <= r ==> r[..|q|] == q;
    assert r <= q ==> q[..|r|] == r;
  }

  /** An input behind a directory that cannot be listed is lost once an input
      above that directory is given too. */
  lemma InputBehindUnlistedIsLost(a: string, b: string, c: string, f: string, size: nat)
    ensures var fs := map[[a] := Dir(true), [a, b] := Dir(false), [a, b, c] := Dir(true), [a, b, c, f] := File(size)];
            var canon := (p: Path) => Some(p);
            var inputs := [[a], [a, b, c]];
            && (forall p :: Minimal(inputs, p) <==> p == [a])
            && Total(fs, CountedAmong(fs, canon, [[a]])) == 0
            && Total(fs, CountedAmong(fs, canon, [[a, b, c]])) == size
            && [a, b, c, f] in CountedAmong(fs, canon, inputs)
  {
    var fs: Tree := map[[a] := Dir(true), [a, b] := Dir(false), [a, b, c] := Dir(true), [a, b, c, f] := File(size)];
    var canon := (p: Path) => Some(p);
    var inputs := [[a], [a, b, c]];
    var file := [a, b, c, f];
    assert [a, b, c][..1] == [a] && [a][..0] == [] && file[..2] == [a, b] && file[..3] == [a, b, c];
    assert inputs[0] == [a] && inputs[1] == [a, b, c];
    assert forall p :: p in fs && fs[p].File? ==> p == file;
    assert !Listed(fs, [a], file);
    assert CountedAmong(fs, canon, [[a]]) == {};
    assert Listed(fs, [a, b, c], file);
    assert file in CountedUnder(fs, canon, [a, b, c]);
    CountedAmongHas(fs, canon, [[a, b, c]], [a, b, c], file);
    CountedAmongHas(fs, canon, inputs, [a, b, c], file);
    assert CountedAmong(fs, canon, [[a, b, c]]) == {file};
    TotalWithout(fs, {file}, file);
    assert {file} - {file} == {};
  }

  /** Below the inputs, the tree holds the parents of its paths, as directories
      that can be listed; and inputs that are directories resolve. */
  ghost predicate AllListed(fs: Tree, canon: Canon, inputs: seq<Path>) {
    && (forall d :: d in inputs && d in fs && fs[d].Dir? ==> canon(d) == Some(d))
    && (forall d, p :: d in inputs && p in fs && d <= p ==> Listed(fs, d, p))
  }

  /** The files that lie under at least one input. */
  ghost function FilesUnder(fs: Tree, inputs: seq<Path>): set<Path> {
    set p | p in fs && fs[p].File? && exists i :: 0 <= i < |inputs| && inputs[i] <= p && inputs[i] != p
  }

  /** If all directories below the inputs can be listed, summing the kept paths
      counts each file lying under at least one input once: keeping only
      minimal inputs neither loses nor repeats a file. */
  lemma KeptCountEveryFileOnce(fs: Tree, canon: Canon, inputs: seq<Path>, kept: seq<Path>)
    requires AllListed(fs, canon, inputs) && AllResolved(canon, kept)
    requires forall p :: p in kept <==> Minimal(inputs, p)
    ensures CountedAmong(fs, canon, kept) == FilesUnder(fs, inputs)
  {
    forall p | p in CountedAmong(fs, canon, kept)
      ensures p in fs && fs[p].File? && exists i :: 0 <= i < |inputs| && inputs[i] <= p && inputs[i] != p
    {
      var j :| 0 <= j < |kept| && p in CountedUnder(fs, canon, kept[j]);
      assert kept[j] in kept;
      var i :| 0 <= i < |inputs| && inputs[i] == kept[j];
    }
    forall p, i | p in fs && fs[p].File? && 0 <= i < |inputs| && inputs[i] <= p && inputs[i] != p
      ensures p in CountedAmong(fs, canon, kept)
    {
      var q := KeptAbove(inputs, kept, inputs[i]);
      assert p[..|q|] == q && Listed(fs, q, p);
      CountedAmongHas(fs, canon, kept, q, p);
    }
  }
}
