/** Turning free text into a well-formed branch name, and out of the way
    of the branches that exist. */
module BranchName {
  import opened Text

  // ----------------------------------------------------- git's format of a name

  predicate HasPair(s: string, c: char) {
    exists i :: 0 <= i < |s| - 1 && s[i] == c && s[i + 1] == c
  }

  predicate Forbidden(c: char) {
    c < ' ' || c == '\U{7F}' || c in " ~^:?*[\\/@{"
  }

  const LOCK := ".lock"

  predicate EndsWith(s: string, suffix: string) {
    |s| >= |suffix| && s[|s| - |suffix|..] == suffix
  }

  /** The rules of git-check-ref-format for a branch name of one component. */
  predicate ValidRef(s: string) {
    && s != []
    && (forall i :: 0 <= i < |s| ==> !Forbidden(s[i]))
    && !HasPair(s, '.') && s[0] != '.' && s[|s| - 1] != '.' && s[0] != '-'
    && !EndsWith(s, LOCK)
  }

  // ------------------------------------------------------- one pass at a time

  predicate Allowed(c: char) {
    IsAsciiAlphanumeric(c) || c == '-' || c == '.'
  }

  function Mapped(raw: string): string {
    if raw == [] then []
    else (if raw[0] == ' ' || raw[0] == '_' then ['-'] else if Allowed(raw[0]) then [raw[0]] else []) + Mapped(raw[1..])
  }

  /** `str::replace` of a doubled `c` by a single one: left to right, matches
      not overlapping. */
  function Halved(s: string, c: char): string
    decreases |s|
  {
    if s == [] then []
    else if |s| > 1 && s[0] == c && s[1] == c then [c] + Halved(s[2..], c)
    else [s[0]] + Halved(s[1..], c)
  }

  /** Every run of `c` as one `c`. */
  function Collapsed(s: string, c: char): string {
    if s == [] then []
    else if |s| > 1 && s[0] == c && s[1] == c then Collapsed(s[1..], c)
    else [s[0]] + Collapsed(s[1..], c)
  }

  const MAX_LEN: nat := 50

  /** Position of the last `c`, counted from the front, or the length. */
  function LastIndex(s: string, c: char): (i: nat)
    ensures i <= |s| && (i < |s| ==> s[i] == c) && (i == |s| ==> c !in s)
  {
    if s == [] then 0
    else if s[|s| - 1] == c then |s| - 1
    else
      var i := LastIndex(s[..|s| - 1], c);
      if i == |s| - 1 then |s| else i
  }

  function Truncated(s: string): string {
    if |s| <= MAX_LEN then s
    else
      var i := LastIndex(s[..MAX_LEN], '-');
      if i < MAX_LEN then s[..i] else s[..MAX_LEN]
  }

  predicate IsEdge(c: char) { c == '-' || c == '.' }

  function TrimEdgeStart(s: string): string {
    if s != [] && IsEdge(s[0]) then TrimEdgeStart(s[1..]) else s
  }

  function TrimEdgeEnd(s: string): string {
    if s != [] && IsEdge(s[|s| - 1]) then TrimEdgeEnd(s[..|s| - 1]) else s
  }

  lemma {:induction false} TrimEdgeEndShrinks(s: string)
    ensures TrimEdgeEnd(s) <= s
  {
    if s != [] && IsEdge(s[|s| - 1]) {
      TrimEdgeEndShrinks(s[..|s| - 1]);
    }
  }

  function Unlocked(s: string): string
    decreases |s|
  {
    TrimEdgeEndShrinks(s[..if EndsWith(s, LOCK) then |s| - |LOCK| else |s|]);
    if EndsWith(s, LOCK) then Unlocked(TrimEdgeEnd(s[..|s| - |LOCK|])) else s
  }

  function Sanitized(raw: string): string {
    Unlocked(TrimEdgeEnd(TrimEdgeStart(Truncated(Collapsed(Collapsed(Mapped(raw), '-'), '.')))))
  }

  // ------------------------------------------------------------ as it is coded

  method CollapsePairs(s: string, c: char) returns (name: string)
    ensures name == Collapsed(s, c)
  {
    name := s;
    while HasPair(name, c)
      invariant Collapsed(name, c) == Collapsed(s, c)
      decreases |name|
    {
      HalvedCollapses(name, c);
      HalvedShrinks(name, c);
      name := Halved(name, c);
    }
    CollapsedIsSelf(name, c);
  }

  method SanitizeBranchName(raw: string) returns (name: string)
    ensures name == Sanitized(raw)
  {
    name := CollapsePairs(Mapped(raw), '-');
    name := CollapsePairs(name, '.');
    if |name| > MAX_LEN {
      var i := LastIndex(name[..MAX_LEN], '-');
      name := if i < MAX_LEN then name[..i] else name[..MAX_LEN];
    }
    name := TrimEdgeEnd(TrimEdgeStart(name));
    while EndsWith(name, LOCK)
      invariant Unlocked(name) == Sanitized(raw)
      decreases |name|
    {
      TrimEdgeEndShrinks(name[..|name| - |LOCK|]);
      name := TrimEdgeEnd(name[..|name| - |LOCK|]);
    }
  }

  // ---------------------------------------------------------------- collapsing

  lemma {:induction false} HalvedHead(s: string, c: char)
    ensures Halved(s, c) == [] <==> s == []
    ensures s != [] ==> Halved(s, c)[0] == s[0]
  {
  }

  lemma {:induction false} HalvedCollapses(s: string, c: char)
    ensures Collapsed(Halved(s, c), c) == Collapsed(s, c)
    decreases |s|
  {
    if s != [] {
      var pair := |s| > 1 && s[0] == c && s[1] == c;
      var rest := if pair then s[2..] else s[1..];
      HalvedCollapses(rest, c);
      HalvedHead(rest, c);
      assert Halved(s, c)[1..] == Halved(rest, c);
      if pair {
        assert s[1..][1..] == rest;
      }
    }
  }

  lemma {:induction false} HalvedShrinks(s: string, c: char)
    ensures |Halved(s, c)| <= |s| && (HasPair(s, c) ==> |Halved(s, c)| < |s|)
    decreases |s|
  {
    if s != [] {
      if |s| > 1 && s[0] == c && s[1] == c {
        HalvedShrinks(s[2..], c);
      } else {
        HalvedShrinks(s[1..], c);
        if i :| 0 <= i < |s| - 1 && s[i] == c && s[i + 1] == c {
          assert s[1..][i - 1] == c && s[1..][i] == c;
        }
      }
    }
  }

  lemma {:induction false} CollapsedIsSelf(s: string, c: char)
    requires !HasPair(s, c)
    ensures Collapsed(s, c) == s
  {
    if s != [] {
      assert s == [s[0]] + s[1..];
      PairOfCons(s[0], s[1..], c);
      CollapsedIsSelf(s[1..], c);
    }
  }

  /** Collapsing leaves no pair of `c`, makes no new pair of another letter, and
      brings in no letter. */
  lemma {:induction false} CollapsedHasNoPair(s: string, c: char)
    ensures !HasPair(Collapsed(s, c), c)
    ensures forall d :: !HasPair(s, d) ==> !HasPair(Collapsed(s, c), d)
    ensures forall x :: x in Collapsed(s, c) ==> x in s
    ensures Collapsed(s, c) == [] <==> s == []
    ensures s != [] ==> Collapsed(s, c)[0] == s[0]
  {
    if s != [] {
      var rest := s[1..];
      CollapsedHasNoPair(rest, c);
      forall d | HasPair(rest, d) ensures HasPair(s, d) {
        var i :| 0 <= i < |rest| - 1 && rest[i] == d && rest[i + 1] == d;
        assert s[i + 1] == d && s[i + 2] == d;
      }
      if !(|s| > 1 && s[0] == c && s[1] == c) {
        forall d | HasPair(Collapsed(s, c), d) ensures HasPair(s, d) && d != c {
          PairOfCons(s[0], Collapsed(rest, c), d);
          if !HasPair(Collapsed(rest, c), d) {
            assert s[0] == d && s[1] == d;
          }
        }
      }
    }
  }

  lemma PairOfCons(x: char, t: string, d: char)
    ensures HasPair([x] + t, d) <==> HasPair(t, d) || (t != [] && x == d && t[0] == d)
  {
    var s := [x] + t;
    if i :| 0 <= i < |s| - 1 && s[i] == d && s[i + 1] == d {
      if i > 0 {
        assert t[i - 1] == d && t[i] == d;
      }
    }
    if i :| 0 <= i < |t| - 1 && t[i] == d && t[i + 1] == d {
      assert s[i + 1] == d && s[i + 2] == d;
    }
    if t != [] && x == d && t[0] == d {
      assert s[0] == d && s[1] == d;
    }
  }

  // ----------------------------------------------------------- clean substrings

  /** Letters the format allows, no pair of hyphens or dots, and not too long. */
  ghost predicate Tidy(s: string) {
    && (forall i :: 0 <= i < |s| ==> Allowed(s[i]))
    && !HasPair(s, '-') && !HasPair(s, '.') && |s| <= MAX_LEN
  }

  lemma PartIsTidy(s: string, lo: nat, hi: nat)
    requires lo <= hi <= |s| && hi - lo <= MAX_LEN
    requires (forall i :: 0 <= i < |s| ==> Allowed(s[i])) && !HasPair(s, '-') && !HasPair(s, '.')
    ensures Tidy(s[lo..hi])
  {
    NoPairInPart(s, lo, hi, '-');
    NoPairInPart(s, lo, hi, '.');
  }

  lemma NoPairInPart(s: string, lo: nat, hi: nat, c: char)
    requires lo <= hi <= |s| && !HasPair(s, c)
    ensures !HasPair(s[lo..hi], c)
  {
    forall i | 0 <= i < hi - lo - 1 ensures !(s[lo..hi][i] == c && s[lo..hi][i + 1] == c) {
      assert s[lo..hi][i] == s[lo + i] && s[lo..hi][i + 1] == s[lo + i + 1];
    }
  }

  lemma {:induction false} MappedIsAllowed(raw: string)
    ensures forall i :: 0 <= i < |Mapped(raw)| ==> Allowed(Mapped(raw)[i])
    ensures (forall i :: 0 <= i < |raw| ==> Allowed(raw[i])) ==> Mapped(raw) == raw
  {
    if raw != [] {
      MappedIsAllowed(raw[1..]);
      assert forall i :: 0 <= i < |raw[1..]| ==> raw[1..][i] == raw[i + 1];
    }
  }

  lemma {:induction false} TrimStartIsTidy(s: string)
    requires Tidy(s)
    ensures Tidy(TrimEdgeStart(s)) && (TrimEdgeStart(s) != [] ==> !IsEdge(TrimEdgeStart(s)[0]))
  {
    if s != [] && IsEdge(s[0]) {
      PartIsTidy(s, 1, |s|);
      TrimStartIsTidy(s[1..]);
    }
  }

  /** Tidy, and no hyphen or dot at either edge. */
  ghost predicate Trimmed(s: string) {
    Tidy(s) && (s != [] ==> !IsEdge(s[0]) && !IsEdge(s[|s| - 1]))
  }

  lemma {:induction false} TrimEndIsTrimmed(s: string)
    requires Tidy(s) && (s != [] ==> !IsEdge(s[0]))
    ensures Trimmed(TrimEdgeEnd(s))
  {
    if s != [] && IsEdge(s[|s| - 1]) {
      PartIsTidy(s, 0, |s| - 1);
      TrimEndIsTrimmed(s[..|s| - 1]);
    }
  }

  lemma {:induction false} UnlockedIsClean(s: string)
    requires Trimmed(s)
    ensures Trimmed(Unlocked(s)) && !EndsWith(Unlocked(s), LOCK)
    decreases |s|
  {
    if EndsWith(s, LOCK) {
      var cut := s[..|s| - |LOCK|];
      PartIsTidy(s, 0, |s| - |LOCK|);
      TrimEdgeEndShrinks(cut);
      TrimEndIsTrimmed(cut);
      UnlockedIsClean(TrimEdgeEnd(cut));
    }
  }

  ghost predicate Clean(s: string) {
    Trimmed(s) && !EndsWith(s, LOCK)
  }

  lemma SanitizedIsClean(raw: string)
    ensures Clean(Sanitized(raw))
  {
    var mapped := Mapped(raw);
    MappedIsAllowed(raw);
    var once := Collapsed(mapped, '-');
    CollapsedHasNoPair(mapped, '-');
    var twice := Collapsed(once, '.');
    CollapsedHasNoPair(once, '.');
    assert forall i :: 0 <= i < |twice| ==> twice[i] in twice && twice[i] in once && twice[i] in mapped;
    var short := Truncated(twice);
    assert exists n: nat :: n <= |twice| && n <= MAX_LEN && short == twice[..n] by {
      if |twice| <= MAX_LEN {
        assert twice[..|twice|] == short;
      } else {
        var i := LastIndex(twice[..MAX_LEN], '-');
        assert short == twice[..if i < MAX_LEN then i else MAX_LEN];
      }
    }
    var n: nat :| n <= |twice| && n <= MAX_LEN && short == twice[..n];
    PartIsTidy(twice, 0, n);
    assert twice[0..n] == short;
    TrimStartIsTidy(short);
    TrimEndIsTrimmed(TrimEdgeStart(short));
    UnlockedIsClean(TrimEdgeEnd(TrimEdgeStart(short)));
  }

  // ------------------------------------------------------------------ theorems

  /** A sanitized name is at most 50 letters long and, unless it is empty, of
      the format, with no hyphen or dot at either edge. */
  lemma SanitizedIsValid(raw: string)
    ensures var s := Sanitized(raw);
            && |s| <= MAX_LEN
            && (s != [] ==> ValidRef(s) && !IsEdge(s[0]) && !IsEdge(s[|s| - 1]))
  {
    SanitizedIsClean(raw);
    var s := Sanitized(raw);
    forall i | 0 <= i < |s| ensures !Forbidden(s[i]) {
      assert Allowed(s[i]);
    }
  }

  /** Sanitizing changes nothing exactly on the clean names, among them every
      sanitized one. */
  lemma SanitizeIsIdempotent(s: string)
    ensures Sanitized(s) == s <==> Clean(s)
    ensures Sanitized(Sanitized(s)) == Sanitized(s)
  {
    SanitizedIsClean(s);
    CleanIsFixed(Sanitized(s));
    if Clean(s) {
      CleanIsFixed(s);
    }
  }

  lemma CleanIsFixed(s: string)
    requires Clean(s)
    ensures Sanitized(s) == s
  {
    MappedIsAllowed(s);
    CollapsedIsSelf(s, '-');
    CollapsedIsSelf(s, '.');
  }

  // ------------------------------------------------------- names that are lost

  predicate AllEdges(s: string) {
    forall i :: 0 <= i < |s| ==> IsEdge(s[i])
  }

  /** The last hyphen of the first fifty characters, where a name is cut. */
  predicate IsBoundary(name: string, i: int) {
    0 <= i < MAX_LEN < |name| && name[i] == '-' && forall k :: i < k < MAX_LEN ==> name[k] != '-'
  }

  /** Nothing but hyphens and dots is left of the text, or nothing else stands
      before the boundary at which it is cut. */
  ghost predicate LosesTheName(raw: string) {
    var name := Collapsed(Collapsed(Mapped(raw), '-'), '.');
    AllEdges(name) || exists i :: IsBoundary(name, i) && AllEdges(name[..i])
  }

  lemma {:induction false} TrimStartIsEmpty(s: string)
    ensures TrimEdgeStart(s) == [] <==> AllEdges(s)
    ensures TrimEdgeStart(s) != [] ==> !IsEdge(TrimEdgeStart(s)[0])
  {
    if s != [] && IsEdge(s[0]) {
      TrimStartIsEmpty(s[1..]);
      assert forall i :: 0 < i < |s| ==> s[i] == s[1..][i - 1];
    }
  }

  lemma {:induction false} TrimEndKeepsTheHead(s: string)
    requires s != [] && !IsEdge(s[0])
    ensures TrimEdgeEnd(s) != [] && TrimEdgeEnd(s)[0] == s[0]
  {
    if IsEdge(s[|s| - 1]) {
      TrimEndKeepsTheHead(s[..|s| - 1]);
    }
  }

  lemma {:induction false} UnlockedKeepsTheHead(s: string)
    requires s != [] && !IsEdge(s[0])
    ensures Unlocked(s) != [] && Unlocked(s)[0] == s[0]
    decreases |s|
  {
    if EndsWith(s, LOCK) {
      var cut := s[..|s| - |LOCK|];
      assert s[|s| - |LOCK|] == LOCK[0] == '.';
      TrimEdgeEndShrinks(cut);
      TrimEndKeepsTheHead(cut);
      UnlockedKeepsTheHead(TrimEdgeEnd(cut));
    }
  }

  /** Cutting a collapsed name leaves only edges exactly in the two cases of
      `LosesTheName`. */
  lemma TruncatedToEdges(name: string)
    requires !HasPair(name, '.')
    ensures AllEdges(Truncated(name)) <==>
              AllEdges(name) || exists i :: IsBoundary(name, i) && AllEdges(name[..i])
  {
    if |name| > MAX_LEN {
      var i := LastIndex(name[..MAX_LEN], '-');
      LastIndexIsLast(name[..MAX_LEN], '-');
      if i < MAX_LEN {
        assert IsBoundary(name, i) && Truncated(name) == name[..i];
        assert forall j :: IsBoundary(name, j) ==> j == i;
      } else {
        assert name[0] == name[..MAX_LEN][0] && name[1] == name[..MAX_LEN][1];
        assert !(name[0] == '.' && name[1] == '.');
        assert forall j :: 0 <= j < MAX_LEN ==> name[j] == name[..MAX_LEN][j];
      }
    }
  }

  lemma {:induction false} LastIndexIsLast(s: string, c: char)
    ensures forall k :: LastIndex(s, c) < k < |s| ==> s[k] != c
  {
    if s != [] && s[|s| - 1] != c {
      LastIndexIsLast(s[..|s| - 1], c);
    }
  }

  /** A text loses its name altogether exactly when nothing but hyphens and dots
      survives the cut. */
  lemma SanitizedIsEmptyExactly(raw: string)
    ensures Sanitized(raw) == [] <==> LosesTheName(raw)
  {
    var name := Collapsed(Collapsed(Mapped(raw), '-'), '.');
    var short := Truncated(name);
    CollapsedHasNoPair(Collapsed(Mapped(raw), '-'), '.');
    TruncatedToEdges(name);
    TrimStartIsEmpty(short);
    var trimmed := TrimEdgeStart(short);
    if trimmed != [] {
      TrimEndKeepsTheHead(trimmed);
      UnlockedKeepsTheHead(TrimEdgeEnd(trimmed));
    }
  }

  /** So a long first word behind a hyphen, or behind a dot and a hyphen, is
      lost: the word boundary found in the first fifty letters is that hyphen. */
  lemma LeadingHyphenCanLoseTheName(edge: string, word: string)
    requires edge == "-" || edge == ".-"
    requires |word| >= MAX_LEN && forall i :: 0 <= i < |word| ==> IsAsciiAlphanumeric(word[i])
    ensures Sanitized(edge + word) == []
  {
    var s := edge + word;
    var n := |edge|;
    assert forall i :: n <= i < |s| ==> s[i] == word[i - n];
    MappedIsAllowed(s);
    forall c, i | IsEdge(c) && 0 <= i < |s| - 1 ensures !(s[i] == c && s[i + 1] == c) {
      if i + 1 >= n {
        assert s[i + 1] == word[i + 1 - n];
      }
    }
    CollapsedIsSelf(s, '-');
    CollapsedIsSelf(s, '.');
    assert IsBoundary(s, n - 1) && AllEdges(s[..n - 1]);
    SanitizedIsEmptyExactly(s);
  }

  // --------------------------------------------------------------- deconflicting

  function Digit(n: nat): char
    requires n < 10
  {
    '0' + n as char
  }

  function Decimal(n: nat): string
    requires n < 100
  {
    if n < 10 then [Digit(n)] else [Digit(n / 10), Digit(n % 10)]
  }

  function Suffixed(name: string, suffix: string): string {
    name + "-" + suffix
  }

  /** `id` is the start of a fresh UUID. */
  method DeconflictAgainst(name: string, existing: set<string>, id: string) returns (free: string)
    ensures name !in existing ==> free == name
    ensures name in existing ==>
              (exists n: nat :: 2 <= n <= 99 && free == name + "-" + Decimal(n) && free !in existing
                                && forall m: nat :: 2 <= m < n ==> name + "-" + Decimal(m) in existing)
              || (free == name + "-" + id
                  && forall m: nat :: 2 <= m <= 99 ==> name + "-" + Decimal(m) in existing)
    ensures free in existing ==> free == name + "-" + id
  {
    if name !in existing {
      return name;
    }
    for n: nat := 2 to 100
      invariant forall m: nat :: 2 <= m < n ==> Suffixed(name, Decimal(m)) in existing
    {
      var candidate := Suffixed(name, Decimal(n));
      if candidate !in existing {
        return candidate;
      }
    }
    return Suffixed(name, id);
  }

  predicate IsHex(c: char) {
    '0' <= c <= '9' || 'a' <= c <= 'f'
  }

  /** Neither a number nor the start of a UUID, put behind a valid name, makes
      it invalid. */
  lemma {:induction false} SuffixKeepsValid(name: string, suffix: string)
    requires ValidRef(name) && suffix != [] && forall i :: 0 <= i < |suffix| ==> IsHex(suffix[i])
    ensures ValidRef(Suffixed(name, suffix)) && Suffixed(name, suffix) != name
  {
    var s := Suffixed(name, suffix);
    var n := |name|;
    assert s[n] == '-';
    assert forall i :: 0 <= i < n ==> s[i] == name[i];
    assert forall i :: n < i < |s| ==> s[i] == suffix[i - n - 1];
    forall i | 0 <= i < |s| - 1 ensures !(s[i] == '.' && s[i + 1] == '.') {
      if i + 1 < n {
        assert !(name[i] == '.' && name[i + 1] == '.');
      }
    }
    LockEndsInK(s);
  }

  lemma LockEndsInK(s: string)
    ensures EndsWith(s, LOCK) ==> s[|s| - 1] == 'k'
  {
    if EndsWith(s, LOCK) {
      assert s[|s| - 1] == s[|s| - |LOCK|..][4] == LOCK[4];
    }
  }

  lemma DecimalIsHex(n: nat)
    requires n < 100
    ensures Decimal(n) != [] && forall i :: 0 <= i < |Decimal(n)| ==> IsHex(Decimal(n)[i])
  {
  }

  /** What `DeconflictAgainst` may return for a sanitized name keeps the
      format, whichever suffix it takes. */
  lemma DeconflictedIsValid(raw: string, n: nat, id: string)
    requires Sanitized(raw) != [] && 2 <= n <= 99
    requires id != [] && forall i :: 0 <= i < |id| ==> IsHex(id[i])
    ensures ValidRef(Sanitized(raw))
    ensures ValidRef(Suffixed(Sanitized(raw), Decimal(n))) && ValidRef(Suffixed(Sanitized(raw), id))
  {
    SanitizedIsValid(raw);
    DecimalIsHex(n);
    SuffixKeepsValid(Sanitized(raw), Decimal(n));
    SuffixKeepsValid(Sanitized(raw), id);
  }
}
