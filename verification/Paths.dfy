/** Paths as sequences of components, and the order `PathBuf` sorts by. */
module Paths {
  import opened Basics

  type Path = seq<string>

  /** `Path::canonicalize` on the file system as it is: `None` on error. */
  type Canon = Path -> Option<Path>

  /** Strict lexicographic order, by character. */
  predicate StringLess(a: string, b: string) {
    b != [] && (a == [] || a[0] < b[0] || (a[0] == b[0] && StringLess(a[1..], b[1..])))
  }

  /** Component by component. */
  predicate Leq(p: Path, q: Path) {
    p == [] || (q != [] && (StringLess(p[0], q[0]) || (p[0] == q[0] && Leq(p[1..], q[1..]))))
  }

  lemma {:induction false} StringOrder(a: string, b: string)
    ensures StringLess(a, b) || a == b || StringLess(b, a)
    ensures !(StringLess(a, b) && StringLess(b, a)) && !StringLess(a, a)
  {
    if a != [] {
      StringOrder(a[1..], if b == [] then b else b[1..]);
      if b != [] && a[0] == b[0] && a[1..] == b[1..] {
        assert a == [a[0]] + a[1..] && b == [b[0]] + b[1..];
      }
    }
  }

  lemma {:induction false} StringTransitive(a: string, b: string, c: string)
    requires StringLess(a, b) && StringLess(b, c)
    ensures StringLess(a, c)
  {
    if a != [] && a[0] == b[0] == c[0] {
      StringTransitive(a[1..], b[1..], c[1..]);
    }
  }

  lemma {:induction false} LeqTotal(p: Path, q: Path)
    ensures Leq(p, q) || Leq(q, p)
    ensures Leq(p, p)
  {
    if p != [] {
      LeqTotal(p[1..], if q == [] then q else q[1..]);
      if q != [] {
        StringOrder(p[0], q[0]);
      }
    }
  }

  lemma {:induction false} LeqTransitive(p: Path, q: Path, r: Path)
    requires Leq(p, q) && Leq(q, r)
    ensures Leq(p, r)
  {
    if p != [] {
      if p[0] == q[0] == r[0] {
        StringOrder(p[0], p[0]);
        LeqTransitive(p[1..], q[1..], r[1..]);
      } else if p[0] != q[0] && q[0] != r[0] {
        StringTransitive(p[0], q[0], r[0]);
      }
    }
  }

  lemma {:induction false} LeqAntisymmetric(p: Path, q: Path)
    requires Leq(p, q) && Leq(q, p)
    ensures p == q
  {
    if p != [] {
      StringOrder(p[0], q[0]);
      LeqAntisymmetric(p[1..], q[1..]);
      assert p == [p[0]] + p[1..] && q == [q[0]] + q[1..];
    }
  }

  /** An ancestor sorts first. */
  lemma {:induction false} AncestorSortsFirst(p: Path, q: Path)
    requires p <= q
    ensures Leq(p, q)
  {
    if p != [] {
      AncestorSortsFirst(p[1..], q[1..]);
    }
  }

  ghost predicate Sorted(s: seq<Path>) {
    forall i, j :: 0 <= i < j < |s| ==> Leq(s[i], s[j])
  }

  function Insert(p: Path, s: seq<Path>): seq<Path> {
    if s == [] || Leq(p, s[0]) then [p] + s else [s[0]] + Insert(p, s[1..])
  }

  /** `Vec::sort`. */
  function Sort(s: seq<Path>): seq<Path> {
    if s == [] then [] else Insert(s[0], Sort(s[1..]))
  }

  /** `Vec::dedup`: drops what equals its predecessor. */
  function Dedup(s: seq<Path>): seq<Path>
    decreases |s|
  {
    if |s| < 2 then s
    else if s[0] == s[1] then Dedup(s[1..])
    else [s[0]] + Dedup(s[1..])
  }

  lemma {:induction false} InsertSorted(p: Path, s: seq<Path>)
    requires Sorted(s)
    ensures Sorted(Insert(p, s)) && forall q :: q in Insert(p, s) <==> q == p || q in s
  {
    if s == [] {
    } else if Leq(p, s[0]) {
      forall j | 0 <= j < |s| ensures Leq(p, s[j]) {
        if j > 0 {
          LeqTransitive(p, s[0], s[j]);
        }
      }
    } else {
      LeqTotal(p, s[0]);
      var rest := Insert(p, s[1..]);
      InsertSorted(p, s[1..]);
      forall j | 0 <= j < |rest| ensures Leq(s[0], rest[j]) {
        assert rest[j] == p || rest[j] in s[1..];
      }
      assert forall q :: q in s <==> q == s[0] || q in s[1..];
    }
  }

  lemma {:induction false} SortSorts(s: seq<Path>)
    ensures Sorted(Sort(s)) && forall p :: p in Sort(s) <==> p in s
  {
    if s != [] {
      SortSorts(s[1..]);
      InsertSorted(s[0], Sort(s[1..]));
      assert forall p :: p in s <==> p == s[0] || p in s[1..];
    }
  }

  ghost predicate NoRepeats(s: seq<Path>) {
    forall i, j :: 0 <= i < j < |s| ==> s[i] != s[j]
  }

  lemma {:induction false} DedupSorted(s: seq<Path>)
    requires Sorted(s)
    ensures Sorted(Dedup(s)) && NoRepeats(Dedup(s)) && forall p :: p in Dedup(s) <==> p in s
    decreases |s|
  {
    if |s| >= 2 {
      DedupSorted(s[1..]);
      var rest := Dedup(s[1..]);
      assert forall p :: p in s <==> p == s[0] || p in s[1..];
      if s[0] != s[1] {
        forall j | 0 <= j < |rest| ensures Leq(s[0], rest[j]) && s[0] != rest[j] {
          assert rest[j] in s[1..];
          var k :| 0 < k < |s| && s[k] == rest[j];
          if s[0] == s[k] {
            LeqTotal(s[0], s[0]);
            if k > 1 {
              LeqAntisymmetric(s[1], s[0]);
            }
          }
        }
      } else {
        assert s[0] == s[1..][0];
      }
    }
  }
}
