/** What sanitizing keeps of a text: its words, hyphenated, and its letters. */
module BranchWords {
  import opened Text
  import opened BranchName

  predicate IsLetter(c: char) {
    'a' <= c <= 'z' || 'A' <= c <= 'Z' || '0' <= c <= '9'
  }

  predicate IsGap(c: char) {
    c == ' ' || c == '_'
  }

  function Hyphenated(c: char): char {
    if IsGap(c) then '-' else c
  }

  lemma {:induction false} MappedConcat(a: string, b: string)
    ensures Mapped(a + b) == Mapped(a) + Mapped(b)
  {
    if a == "" {
      assert a + b == b;
    } else {
      assert (a + b)[1..] == a[1..] + b;
      MappedConcat(a[1..], b);
    }
  }

  lemma {:induction false} MappedWords(raw: string)
    requires forall i :: 0 <= i < |raw| ==> IsLetter(raw[i]) || IsGap(raw[i])
    ensures |Mapped(raw)| == |raw| && forall i :: 0 <= i < |raw| ==> Mapped(raw)[i] == Hyphenated(raw[i])
  {
    if raw != "" {
      var c := raw[0];
      assert IsLetter(c) || IsGap(c);
      assert forall i :: 0 <= i < |raw[1..]| ==> raw[1..][i] == raw[i + 1];
      MappedWords(raw[1..]);
      assert Mapped(raw) == [Hyphenated(c)] + Mapped(raw[1..]);
    }
  }

  lemma LockHasADot(s: string)
    ensures EndsWith(s, LOCK) ==> '.' in s
  {
    if EndsWith(s, LOCK) {
      assert s[|s| - |LOCK|] == s[|s| - |LOCK|..][0];
    }
  }

  /** Words of letters and digits with one space or underscore between them come
      out as they are, with a hyphen in every gap. */
  lemma WordsAreHyphenated(raw: string)
    requires 0 < |raw| <= 50 && IsLetter(raw[0]) && IsLetter(raw[|raw| - 1])
    requires forall i :: 0 <= i < |raw| ==> IsLetter(raw[i]) || IsGap(raw[i])
    requires forall i :: 0 <= i < |raw| - 1 ==> IsLetter(raw[i]) || IsLetter(raw[i + 1])
    ensures |Sanitized(raw)| == |raw|
    ensures forall i :: 0 <= i < |raw| ==> Sanitized(raw)[i] == if IsLetter(raw[i]) then raw[i] else '-'
  {
    var name := Mapped(raw);
    MappedWords(raw);
    HyphenatedShape(raw, name);
    HyphenatedIsClean(name);
    CleanIsFixed(name);
    SanitizedOfMapped(raw);
  }

  lemma SanitizedOfMapped(raw: string)
    ensures Sanitized(Mapped(raw)) == Sanitized(raw)
  {
    MappedIsAllowed(raw);
    MappedIsAllowed(Mapped(raw));
  }

  lemma HyphenatedShape(raw: string, name: string)
    requires 0 < |raw| == |name| && forall i :: 0 <= i < |raw| ==> name[i] == Hyphenated(raw[i])
    requires IsLetter(raw[0]) && IsLetter(raw[|raw| - 1])
    requires forall i :: 0 <= i < |raw| ==> IsLetter(raw[i]) || IsGap(raw[i])
    requires forall i :: 0 <= i < |raw| - 1 ==> IsLetter(raw[i]) || IsLetter(raw[i + 1])
    ensures IsLetter(name[0]) && IsLetter(name[|name| - 1])
    ensures forall i :: 0 <= i < |name| ==> IsLetter(name[i]) || name[i] == '-'
    ensures forall i :: 0 <= i < |name| - 1 ==> IsLetter(name[i]) || IsLetter(name[i + 1])
  {
    forall i | 0 <= i < |raw| ensures IsLetter(raw[i]) ==> name[i] == raw[i] {}
  }

  lemma HyphenatedIsClean(name: string)
    requires 0 < |name| <= 50 && IsLetter(name[0]) && IsLetter(name[|name| - 1])
    requires forall i :: 0 <= i < |name| ==> IsLetter(name[i]) || name[i] == '-'
    requires forall i :: 0 <= i < |name| - 1 ==> IsLetter(name[i]) || IsLetter(name[i + 1])
    ensures Clean(name)
  {
    forall i | 0 <= i < |name| ensures Allowed(name[i]) && name[i] != '.' {}
    assert !HasPair(name, '-') && !HasPair(name, '.');
    LockHasADot(name);
  }

  /** A letter that is neither kept nor a gap can be left out anywhere. */
  lemma OtherLettersDoNotMatter(a: string, c: char, b: string)
    requires !IsLetter(c) && !IsGap(c) && c != '-' && c != '.'
    ensures Sanitized(a + [c] + b) == Sanitized(a + b)
  {
    MappedConcat(a + [c], b);
    MappedConcat(a, [c]);
    MappedConcat(a, b);
    MappedToNothing(c);
    assert Mapped(a) + [] == Mapped(a);
  }

  lemma MappedToNothing(c: char)
    requires !IsLetter(c) && !IsGap(c) && c != '-' && c != '.'
    ensures Mapped([c]) == []
  {
    assert [c][1..] == [];
  }

  // ------------------------------------------------------------------ letters

  function LetterOf(c: char): string {
    if IsLetter(c) then [c] else []
  }

  function Letters(s: string): string {
    if s == [] then [] else LetterOf(s[0]) + Letters(s[1..])
  }

  lemma {:induction false} LettersConcat(a: string, b: string)
    ensures Letters(a + b) == Letters(a) + Letters(b)
  {
    if a == [] {
      assert a + b == b;
    } else {
      assert (a + b)[0] == a[0] && (a + b)[1..] == a[1..] + b;
      LettersConcat(a[1..], b);
      assert LetterOf(a[0]) + (Letters(a[1..]) + Letters(b)) == LetterOf(a[0]) + Letters(a[1..]) + Letters(b);
    }
  }

  lemma {:induction false} MappedKeepsLetters(raw: string)
    ensures Letters(Mapped(raw)) == Letters(raw) && |Mapped(raw)| <= |raw|
  {
    if raw != "" {
      var c := raw[0];
      var kept := if IsGap(c) then ['-'] else if Allowed(c) then [c] else [];
      MappedKeepsLetters(raw[1..]);
      LettersConcat(kept, Mapped(raw[1..]));
      assert Mapped(raw) == kept + Mapped(raw[1..]);
      OneLetter(c);
      OneLetter('-');
    }
  }

  lemma OneLetter(c: char)
    ensures Letters([c]) == if IsLetter(c) then [c] else []
  {
    assert [c][1..] == [];
  }

  lemma {:induction false} CollapsedKeepsLetters(s: string, c: char)
    requires !IsLetter(c)
    ensures Letters(Collapsed(s, c)) == Letters(s) && |Collapsed(s, c)| <= |s|
  {
    if s != "" {
      CollapsedKeepsLetters(s[1..], c);
      if !(|s| > 1 && s[0] == c && s[1] == c) {
        assert Collapsed(s, c)[1..] == Collapsed(s[1..], c);
      }
    }
  }

  lemma {:induction false} TrimStartKeepsLetters(s: string)
    ensures Letters(TrimEdgeStart(s)) == Letters(s)
  {
    if s != "" && IsEdge(s[0]) {
      TrimStartKeepsLetters(s[1..]);
    }
  }

  lemma {:induction false} TrimEndKeepsLetters(s: string)
    ensures Letters(TrimEdgeEnd(s)) == Letters(s)
  {
    if s != "" && IsEdge(s[|s| - 1]) {
      var last := |s| - 1;
      assert s == s[..last] + [s[last]];
      LettersConcat(s[..last], [s[last]]);
      OneLetter(s[last]);
      TrimEndKeepsLetters(s[..last]);
    }
  }

  lemma LockLetters()
    ensures Letters(LOCK) == "lock"
  {
    assert LOCK == ['.'] + (['l'] + (['o'] + (['c'] + ['k'])));
    LettersConcat(['.'], ['l'] + (['o'] + (['c'] + ['k'])));
    LettersConcat(['l'], ['o'] + (['c'] + ['k']));
    LettersConcat(['o'], ['c'] + ['k']);
    LettersConcat(['c'], ['k']);
    OneLetter('.');
    OneLetter('l');
    OneLetter('o');
    OneLetter('c');
    OneLetter('k');
  }

  /** Only the letters of `.lock` suffixes are lost at the end. */
  lemma {:induction false} UnlockedLetters(s: string)
    ensures Letters(Unlocked(s)) <= Letters(s)
    ensures !EndsWith(Letters(s), "lock") ==> Unlocked(s) == s
    decreases |s|
  {
    if EndsWith(s, LOCK) {
      var cut := s[..|s| - |LOCK|];
      assert s == cut + LOCK;
      LettersConcat(cut, LOCK);
      LockLetters();
      assert Letters(s)[|Letters(s)| - 4..] == "lock";
      TrimEdgeEndShrinks(cut);
      TrimEndKeepsLetters(cut);
      UnlockedLetters(TrimEdgeEnd(cut));
    }
  }

  lemma TruncatedLetters(s: string)
    ensures Letters(Truncated(s)) <= Letters(s)
  {
    var n: nat := |Truncated(s)|;
    assert s == s[..n] + s[n..] && Truncated(s) == s[..n];
    LettersConcat(s[..n], s[n..]);
  }

  /** The letters and digits of a name are the first ones of the text, in their
      order, and all of them if the text has at most fifty characters and does
      not end in "lock". */
  lemma LettersAreKept(raw: string)
    ensures Letters(Sanitized(raw)) <= Letters(raw)
    ensures |raw| <= 50 && !EndsWith(Letters(raw), "lock") ==> Letters(Sanitized(raw)) == Letters(raw)
  {
    var mapped := Mapped(raw);
    var once := Collapsed(mapped, '-');
    var twice := Collapsed(once, '.');
    MappedKeepsLetters(raw);
    CollapsedKeepsLetters(mapped, '-');
    CollapsedKeepsLetters(once, '.');
    TruncatedLetters(twice);
    TrimStartKeepsLetters(Truncated(twice));
    TrimEndKeepsLetters(TrimEdgeStart(Truncated(twice)));
    UnlockedLetters(TrimEdgeEnd(TrimEdgeStart(Truncated(twice))));
  }

  /** A text that is too long is cut between words, where the last gap within its
      first fifty characters is. */
  lemma LongNamesAreCutAtAWord(u: string, v: string)
    requires 0 < |u| < 50 < |u| + 1 + |v|
    requires forall i :: 0 <= i < |u| ==> IsLetter(u[i])
    requires forall i :: 0 <= i < |v| ==> IsLetter(v[i])
    ensures Sanitized(u + " " + v) == u
  {
    var name := u + "-" + v;
    MappedWords(u + " " + v);
    assert Mapped(u + " " + v) == name;
    TwoWordsAreTidy(u, v, name);
    CutBehind(u, name);
    assert forall i :: 0 <= i < |u| ==> IsLetter(u[i]) && Allowed(u[i]) && !IsEdge(u[i]);
    LockHasADot(u);
  }

  lemma TwoWordsAreTidy(u: string, v: string, name: string)
    requires name == u + "-" + v
    requires (forall i :: 0 <= i < |u| ==> IsLetter(u[i])) && (forall i :: 0 <= i < |v| ==> IsLetter(v[i]))
    ensures Collapsed(Collapsed(name, '-'), '.') == name
  {
    assert forall i :: 0 <= i < |name| && i != |u| ==> IsLetter(name[i]);
    assert !HasPair(name, '-') && !HasPair(name, '.');
    CollapsedIsSelf(name, '-');
    CollapsedIsSelf(name, '.');
  }

  lemma CutBehind(u: string, name: string)
    requires |u| < 50 < |name| && u == name[..|u|] && name[|u|] == '-'
    requires forall i :: |u| < i < |name| ==> name[i] != '-'
    ensures Truncated(name) == u
  {
    var head := name[..50];
    LastIndexIsLast(head, '-');
    assert head[|u|] == '-';
    assert LastIndex(head, '-') == |u|;
  }

  // ------------------------------------------------------------------ suffixes

  /** The number that a text of digits is read as. */
  function ValueOf(digits: string): int
    decreases |digits|
  {
    if digits == "" then 0
    else 10 * ValueOf(digits[..|digits| - 1]) + (digits[|digits| - 1] as int - '0' as int)
  }

  /** A suffix is the usual decimal number, without leading zeros. */
  lemma DecimalIsTheNumber(n: nat)
    requires 2 <= n < 100
    ensures ValueOf(Decimal(n)) == n && Decimal(n)[0] != '0'
    ensures forall i :: 0 <= i < |Decimal(n)| ==> '0' <= Decimal(n)[i] <= '9'
  {
    var d := Decimal(n);
    if n < 10 {
      assert d[..0] == "";
    } else {
      assert d[..1] == [d[0]] && d[..1][..0] == "";
      assert ValueOf(d[..1]) == n / 10;
    }
  }
}
