/** Splicing the same selection a second time. */
module LaunchStability {
  import opened Basics
  import opened LaunchTokens
  import opened LaunchArgs
  import opened LaunchCommand
  import opened LaunchAlgebra

  // ------------------------------------------------- printed settings values

  lemma OwnJsonSurvives()
    ensures Survives(ULTRACODE_JSON)
  {
  }

  function Quoted(text: string): string {
    "'" + text + "'"
  }

  lemma UnquoteQuoted(text: string, other: string)
    ensures Unquote(Quoted(text)) == text
    ensures Quoted(text) == Quoted(other) <==> text == other
  {
    assert Quoted(text)[1..|Quoted(text)| - 1] == text;
    assert Quoted(other)[1..|Quoted(other)| - 1] == other;
  }

  lemma SameText(json: Json, o: Settings)
    requires Lawful(json)
    ensures json.print_(o) == ULTRACODE_JSON <==> o == map["ultracode" := True]
  {
    assert json.parse(json.print_(o)) == Some(o);
    assert json.parse(json.print_(map["ultracode" := True])) == Some(map["ultracode" := True]);
  }

  /** A printed object, quoted, reads back; it is the module's own value only
      when it is that very object. */
  lemma PrintedReadsBack(json: Json, a: Arg, o: Settings)
    requires Lawful(json) && IsSettings(a) && Good(Claude, a)
    ensures var b := WithValue(a, "'" + json.print_(o) + "'");
            && Good(Claude, b) && IsSettings(b) && NotEffort(b) && (b.Valued? <==> a.Valued?)
            && ObjectOf(json, b) == Some(o)
            && (NotOwnPair(b) <==> !(a.Valued? && o == map["ultracode" := True]))
  {
    var text := json.print_(o);
    RenderedIsGood(a, text);
    UnquoteQuoted(text, ULTRACODE_JSON);
    SameText(json, o);
    assert json.parse(text) == Some(o);
    SettingsNotEffort(WithValue(a, Quoted(text)));
  }

  lemma SettingsNotEffort(a: Arg)
    requires IsSettings(a)
    ensures NotEffort(a)
  {
    if a.Single? {
      assert a.tok[2] == "--settings="[2] == 's' && "--effort="[2] == 'e';
    }
  }

  /** What `Bare` leaves: good arguments, no effort, no own pair, and at most
      one settings argument. */
  ghost predicate IsBare(args: seq<Arg>) {
    && AllGood(Claude, args) && Count(args) <= 1
    && forall i :: 0 <= i < |args| ==> NotEffort(args[i]) && NotOwnPair(args[i])
  }

  lemma BareIsBare(args: seq<Arg>)
    requires AllGood(Claude, args) && Count(args) <= 1
    ensures IsBare(Bare(args))
  {
    var once := Keep(args, NotEffort);
    KeepGood(Claude, args, NotEffort);
    KeepGood(Claude, once, NotOwnPair);
    CountOfKeep(args, NotEffort);
    CountOfKeep(once, NotOwnPair);
    forall i | 0 <= i < |Bare(args)| ensures NotEffort(Bare(args)[i]) {
      assert Bare(args)[i] in once;
    }
  }

  lemma BareOfBare(args: seq<Arg>)
    requires forall i :: 0 <= i < |args| ==> NotEffort(args[i]) && NotOwnPair(args[i])
    ensures Bare(args) == args
  {
    KeepAll(args, NotEffort);
    KeepAll(args, NotOwnPair);
  }

  /** Rewriting the one settings argument leaves it the one. */
  lemma OneRewritten(args: seq<Arg>, b: Arg)
    requires Count(args) <= 1 && First(args) < |args| && IsSettings(b)
    ensures var out := args[First(args) := b];
            First(out) == First(args) && Keep(out, IsSettings) == [b]
  {
    OnlyOne(args);
    var out := args[First(args) := b];
    assert First(out) == First(args) by {
      assert IsSettings(out[First(args)]);
      assert forall k :: 0 <= k < First(args) ==> out[k] == args[k];
    }
    SettingsOfSplice(args, First(args), [b]);
    SplicedIs(args, First(args), b);
  }

  lemma SettingsOfSplice(args: seq<Arg>, i: nat, middle: seq<Arg>)
    requires i < |args| && forall k :: 0 <= k < |args| && k != i ==> !IsSettings(args[k])
    ensures Keep(Spliced(args, i, middle), IsSettings) == Keep(middle, IsSettings)
  {
    KeepConcat(args[..i] + middle, args[i + 1..], IsSettings);
    KeepConcat(args[..i], middle, IsSettings);
    KeepNone(args[..i], IsSettings);
    KeepNone(args[i + 1..], IsSettings);
  }

  // -------------------------------------------------------------- plain level

  lemma RewrittenIsBare(json: Json, bare: seq<Arg>, b: Arg)
    requires IsBare(bare) && First(bare) < |bare| && IsSettings(b) && NotEffort(b) && NotOwnPair(b)
    ensures Bare(bare[First(bare) := b]) == bare[First(bare) := b]
  {
    BareOfBare(bare[First(bare) := b]);
  }

  lemma DroppedIsBare(bare: seq<Arg>)
    requires IsBare(bare) && First(bare) < |bare|
    ensures var out := Spliced(bare, First(bare), []);
            Bare(out) == out && First(out) == |out|
  {
    OnlyOne(bare);
    BareOfBare(Spliced(bare, First(bare), []));
    SettingsOfSplice(bare, First(bare), []);
    CountZero(Spliced(bare, First(bare), []));
  }

  lemma ClearTwice(json: Json, bare: seq<Arg>)
    requires Lawful(json) && IsBare(bare)
    ensures var out := ClearArgs(json, bare);
            Bare(out) == out && ClearArgs(json, out) == out
  {
    var i := First(bare);
    if i == |bare| {
      BareOfBare(bare);
    } else {
      var a := bare[i];
      SplicedIs(bare, i, a);
      assert ClearArgs(json, bare) == Spliced(bare, i, ClearArg(json, a));
      if ClearArg(json, a) == [a] {
        BareOfBare(bare);
      } else if ClearArg(json, a) == [] {
        DroppedIsBare(bare);
      } else {
        ClearRewritten(json, bare);
      }
    }
  }

  lemma ClearRewritten(json: Json, bare: seq<Arg>)
    requires Lawful(json) && IsBare(bare) && First(bare) < |bare|
    requires var c := ClearArg(json, bare[First(bare)]);
             c != [] && c != [bare[First(bare)]]
    ensures var out := ClearArgs(json, bare);
            Bare(out) == out && ClearArgs(json, out) == out
  {
    var i := First(bare);
    var b := ClearArg(json, bare[i])[0];
    ClearedClearsToItself(json, bare[i]);
    SplicedIs(bare, i, b);
    OneRewritten(bare, b);
    RewrittenIsBare(json, bare, b);
    ClearedAtFirst(json, bare[i := b], b);
  }

  /** Clearing what clearing printed changes nothing. */
  lemma ClearedClearsToItself(json: Json, a: Arg)
    requires Lawful(json) && IsSettings(a) && Good(Claude, a)
    requires ClearArg(json, a) != [] && ClearArg(json, a) != [a]
    ensures var c := ClearArg(json, a);
            |c| == 1 && IsSettings(c[0]) && NotEffort(c[0]) && NotOwnPair(c[0]) && ClearArg(json, c[0]) == c
  {
    PrintedReadsBack(json, a, ObjectOf(json, a).value - {"ultracode"});
  }

  lemma ClearedAtFirst(json: Json, args: seq<Arg>, b: Arg)
    requires First(args) < |args| && args[First(args)] == b && ClearArg(json, b) == [b]
    ensures ClearArgs(json, args) == args
  {
    SplicedIs(args, First(args), b);
  }

  // ---------------------------------------------------------- ultracode level

  /** The one settings argument is a separate-token object with no key besides
      `ultracode`, in another spelling than the module's own. */
  predicate FoldsIntoOwnPair(json: Json, a: Arg) {
    && a.Valued? && IsSettings(a) && NotOwnPair(a)
    && ObjectOf(json, a).Some? && ObjectOf(json, a).value.Keys <= {"ultracode"}
  }

  lemma OnlyUltracode(o: Settings)
    ensures o["ultracode" := True] == map["ultracode" := True] <==> o.Keys <= {"ultracode"}
  {
    if !(o.Keys <= {"ultracode"}) {
      var k :| k in o.Keys && k != "ultracode";
      assert k in o["ultracode" := True];
    }
  }

  /** Folding what folding printed changes nothing. */
  lemma FoldedFoldsToItself(json: Json, a: Arg)
    requires Lawful(json) && IsSettings(a) && Good(Claude, a) && FoldArg(json, a).Some?
    requires NotOwnPair(a) && !FoldsIntoOwnPair(json, a)
    ensures var b := FoldArg(json, a).value;
            IsSettings(b) && NotEffort(b) && NotOwnPair(b) && FoldArg(json, b) == Some(b)
  {
    var o := ObjectOf(json, a).value;
    OnlyUltracode(o);
    PrintedReadsBack(json, a, o["ultracode" := True]);
    assert o["ultracode" := True]["ultracode" := True] == o["ultracode" := True];
  }

  lemma FixedAtFirst(json: Json, args: seq<Arg>, b: Arg)
    requires First(args) < |args| && args[First(args)] == b && FoldArg(json, b) == Some(b)
    ensures FoldArgs(json, args) == args && FoldArgsKind(json, args).Merged?
  {
    SameUpdate(args, First(args), b);
  }

  lemma SameUpdate(args: seq<Arg>, i: nat, b: Arg)
    requires i < |args| && args[i] == b
    ensures args[i := b] == args
  {
  }

  lemma FoldTwice(json: Json, bare: seq<Arg>)
    requires Lawful(json) && IsBare(bare)
    requires First(bare) < |bare| ==> !FoldsIntoOwnPair(json, bare[First(bare)])
    ensures var out := FoldArgs(json, bare);
            Bare(out) == out && FoldArgs(json, out) == out && FoldArgsKind(json, out) == FoldArgsKind(json, bare)
  {
    var i := First(bare);
    if i < |bare| && FoldArg(json, bare[i]).Some? {
      var b := FoldArg(json, bare[i]).value;
      FoldedFoldsToItself(json, bare[i]);
      OneRewritten(bare, b);
      RewrittenIsBare(json, bare, b);
      FixedAtFirst(json, bare[i := b], b);
    } else {
      BareOfBare(bare);
    }
  }

  lemma FoldIntoOwnPair(json: Json, bare: seq<Arg>)
    requires Lawful(json) && IsBare(bare)
    requires First(bare) < |bare| && FoldsIntoOwnPair(json, bare[First(bare)])
    ensures FoldArgsKind(json, bare).Merged?
    ensures FoldArgsKind(json, Bare(FoldArgs(json, bare))).Absent?
  {
    var i := First(bare);
    var o := ObjectOf(json, bare[i]).value;
    OnlyUltracode(o);
    OwnJsonSurvives();
    PrintedReadsBack(json, bare[i], o["ultracode" := True]);
    var b := FoldArg(json, bare[i]).value;
    SplicedIs(bare, i, b);
    BareDrops(bare, b);
    DroppedIsBare(bare);
  }

  /** An own pair in place of the settings argument is stripped again. */
  lemma BareDrops(bare: seq<Arg>, b: Arg)
    requires IsBare(bare) && First(bare) < |bare| && NotEffort(b) && !NotOwnPair(b)
    ensures Bare(Spliced(bare, First(bare), [b])) == Spliced(bare, First(bare), [])
  {
    var i := First(bare);
    var p, q := bare[..i], bare[i + 1..];
    KeepMiddle(p, b, q, NotEffort);
    KeepMiddle(p, b, q, NotOwnPair);
  }

  lemma KeepMiddle(a: seq<Arg>, b: Arg, c: seq<Arg>, p: Arg -> bool)
    requires forall k :: 0 <= k < |a| ==> p(a[k])
    requires forall k :: 0 <= k < |c| ==> p(c[k])
    ensures Keep(a + [b] + c, p) == a + (if p(b) then [b] else []) + c
  {
    KeepConcat(a + [b], c, p);
    KeepConcat(a, [b], p);
    KeepAll(a, p);
    KeepAll(c, p);
    KeepOne(b, p);
  }

  lemma KeepOne(b: Arg, p: Arg -> bool)
    ensures Keep([b], p) == if p(b) then [b] else []
  {
    if p(b) {
      KeepAll([b], p);
    } else {
      KeepNone([b], p);
    }
  }

  // ------------------------------------------------------- the second splice

  ghost predicate AllNotModel(args: seq<Arg>) {
    forall i :: 0 <= i < |args| ==> NotModel(args[i])
  }

  lemma SettingsNotModel(a: Arg)
    requires IsSettings(a)
    ensures NotModel(a)
  {
    if a.Single? {
      assert a.tok[2] == "--settings="[2] == 's' && "--model="[2] == 'm';
    }
  }

  lemma KeptNotModel(json: Json, args: seq<Arg>, reasoning: string)
    requires AllGood(Claude, args) && AllNotModel(args)
    ensures AllNotModel(Kept(json, args, reasoning))
  {
    KeepGood(Claude, args, NotEffort);
    KeepGood(Claude, Keep(args, NotEffort), NotOwnPair);
    var bare := Bare(args);
    assert AllNotModel(bare) by {
      forall i | 0 <= i < |bare| ensures NotModel(bare[i]) {
        assert bare[i] in Keep(args, NotEffort) && bare[i] in args;
      }
    }
    var i := First(bare);
    if i < |bare| {
      RewritesNotModel(json, bare[i]);
    }
  }

  lemma RewritesNotModel(json: Json, a: Arg)
    requires IsSettings(a)
    ensures FoldArg(json, a).Some? ==> NotModel(FoldArg(json, a).value)
    ensures AllNotModel(ClearArg(json, a))
  {
    SettingsNotModel(a);
    if a.Single? {
      forall value: string ensures IsSettings(WithValue(a, value)) && NotModel(WithValue(a, value)) {
        assert ("--settings=" + value)[..|"--settings="|] == "--settings=";
        SettingsNotModel(WithValue(a, value));
      }
    }
  }

  /** Where the model argument goes on the second pass. */
  lemma ModelAgain(family: Family, k: seq<Arg>, t: seq<Arg>, s: Selection)
    requires AllNotModel(t) && (Model(s).Some? ==> AllNotModel(k))
    ensures var m := ModelArgs(family, s);
            Unmodelled(k + m + t, s) + m == k + t + m
  {
    var m := ModelArgs(family, s);
    if Model(s).Some? {
      KeepConcat(k + m, t, NotModel);
      KeepConcat(k, m, NotModel);
      KeepAll(k, NotModel);
      KeepAll(t, NotModel);
      KeepNone(m, NotModel);
      assert k + [] == k;
    } else {
      assert k + [] == k;
    }
  }

  lemma TailIsBare(json: Json, args: seq<Arg>, reasoning: string)
    ensures Bare(Tail(json, args, reasoning)) == [] && AllNotModel(Tail(json, args, reasoning))
  {
    var tail := Tail(json, args, reasoning);
    if |tail| == 2 {
      var own := Valued("--settings", ULTRACODE_ARG);
      assert tail == [tail[0]] + [own];
      KeepConcat([tail[0]], [own], NotEffort);
      KeepNone([tail[0]], NotEffort);
      KeepAll([own], NotEffort);
      KeepNone([own], NotOwnPair);
    } else {
      KeepNone(tail, NotEffort);
    }
  }

  lemma BareConcat(a: seq<Arg>, b: seq<Arg>)
    ensures Bare(a + b) == Bare(a) + Bare(b)
  {
    KeepConcat(a, b, NotEffort);
    KeepConcat(Keep(a, NotEffort), Keep(b, NotEffort), NotOwnPair);
  }

  /** What the second reasoning pass starts from. */
  lemma BareAgain(json: Json, args: seq<Arg>, m: seq<Arg>, reasoning: string)
    requires Neutral(m)
    ensures var k, t := Kept(json, args, reasoning), Tail(json, args, reasoning);
            Bare(k + t + m) == Bare(k) + m
  {
    var k, t := Kept(json, args, reasoning), Tail(json, args, reasoning);
    NeutralSuffix(json, k + t, m);
    BareConcat(k, t);
    TailIsBare(json, args, reasoning);
    assert Bare(k) + [] == Bare(k);
  }

  ghost predicate Folds(json: Json, args: seq<Arg>, reasoning: string) {
    reasoning == "ultracode" && exists i :: 0 <= i < |args| && FoldsIntoOwnPair(json, args[i])
  }

  lemma FoldsInBare(json: Json, args: seq<Arg>, reasoning: string)
    requires AllGood(Claude, args) && Count(args) <= 1
    ensures var bare := Bare(args);
            Folds(json, args, reasoning) <==>
              reasoning == "ultracode" && First(bare) < |bare| && FoldsIntoOwnPair(json, bare[First(bare)])
  {
    var bare := Bare(args);
    BareIsBare(args);
    KeepGood(Claude, args, NotEffort);
    KeepGood(Claude, Keep(args, NotEffort), NotOwnPair);
    if i :| 0 <= i < |args| && FoldsIntoOwnPair(json, args[i]) {
      SettingsNotEffort(args[i]);
      KeepHas(args, NotEffort, args[i]);
      KeepHas(Keep(args, NotEffort), NotOwnPair, args[i]);
      var j :| 0 <= j < |bare| && bare[j] == args[i];
      OnlyOne(bare);
    }
    if First(bare) < |bare| {
      assert bare[First(bare)] in Keep(args, NotEffort) && bare[First(bare)] in args;
    }
  }

  lemma {:induction false} KeepHas(args: seq<Arg>, p: Arg -> bool, a: Arg)
    requires a in args && p(a)
    ensures a in Keep(args, p)
  {
    if args[0] != a {
      assert a in args[1..];
      KeepHas(args[1..], p, a);
    }
  }

  /** The second Claude pass, started where the model pass leaves it. */
  lemma ClaudeAgain(json: Json, args: seq<Arg>, m: seq<Arg>, reasoning: string)
    requires Lawful(json) && AllGood(Claude, args) && Count(args) <= 1 && Neutral(m)
    ensures var k, t := Kept(json, args, reasoning), Tail(json, args, reasoning);
            (Kept(json, k + t + m, reasoning) + Tail(json, k + t + m, reasoning) == k + m + t) <==>
                !Folds(json, args, reasoning)
  {
    var k, t := Kept(json, args, reasoning), Tail(json, args, reasoning);
    var bare := Bare(args);
    BareIsBare(args);
    BareAgain(json, args, m, reasoning);
    FoldsInBare(json, args, reasoning);
    NeutralSuffix(json, Bare(k), m);
    if reasoning != "ultracode" {
      ClearTwice(json, bare);
    } else if Folds(json, args, reasoning) {
      FoldIntoOwnPair(json, bare);
      var again := Tail(json, k + t + m, reasoning);
      assert again == EffortArgs(Absent) && t == EffortArgs(Merged);
      LastDiffers(Kept(json, k + t + m, reasoning), again, k + m, t);
    } else {
      FoldTwice(json, bare);
    }
  }

  lemma LastDiffers(a: seq<Arg>, b: seq<Arg>, c: seq<Arg>, d: seq<Arg>)
    requires b != [] && d != [] && b[|b| - 1] != d[|d| - 1]
    ensures a + b != c + d
  {
    assert (a + b)[|a + b| - 1] == b[|b| - 1];
    assert (c + d)[|c + d| - 1] == d[|d| - 1];
  }

  lemma UnmodelledCount(args: seq<Arg>, s: Selection)
    requires AllGood(Claude, args) && Count(args) <= 1
    ensures Count(Unmodelled(args, s)) <= 1 && (Model(s).Some? ==> AllNotModel(Unmodelled(args, s)))
  {
    CountOfKeep(args, NotModel);
    KeepGood(Claude, args, NotModel);
  }

  lemma FoldsUnmodelled(json: Json, args: seq<Arg>, s: Selection, reasoning: string)
    requires AllGood(Claude, args)
    ensures Folds(json, Unmodelled(args, s), reasoning) <==> Folds(json, args, reasoning)
  {
    if Model(s).Some? {
      KeepGood(Claude, args, NotModel);
      if i :| 0 <= i < |args| && FoldsIntoOwnPair(json, args[i]) {
        SettingsNotModel(args[i]);
        KeepHas(args, NotModel, args[i]);
      }
    }
  }

  /** The condition under which a second splice moves the settings argument:
      Claude, `ultracode`, and a settings object of the user's own that holds
      nothing else, spelled differently, in a token of its own. */
  ghost predicate Unstable(json: Json, family: Family, args: seq<Arg>, s: Selection) {
    family.Claude? && Reasoning(s).Some? && Folds(json, args, Reasoning(s).value)
  }

  lemma CodexAgain(b: seq<Arg>, m: seq<Arg>, c: Arg)
    requires !NotOverride(c) && forall i :: 0 <= i < |m| ==> NotOverride(m[i])
    ensures Keep(b + m, NotOverride) == Keep(b, NotOverride) + m
    ensures Keep(Keep(b, NotOverride) + [c] + m, NotOverride) == Keep(b, NotOverride) + m
  {
    KeepConcat(b, m, NotOverride);
    KeepAll(m, NotOverride);
    KeepCoarser(b, NotOverride, NotOverride);
    KeepConcat(Keep(b, NotOverride) + [c], m, NotOverride);
    KeepConcat(Keep(b, NotOverride), [c], NotOverride);
    KeepNone([c], NotOverride);
    assert Keep(b, NotOverride) + [] == Keep(b, NotOverride);
  }

  lemma KeepNotModel(f: Family, args: seq<Arg>, p: Arg -> bool)
    requires AllGood(f, args) && AllNotModel(args)
    ensures AllNotModel(Keep(args, p))
  {
    KeepGood(f, args, p);
  }

  lemma ClaudeTwice(json: Json, args: seq<Arg>, s: Selection)
    requires Lawful(json) && AllGood(Claude, args) && SelectsNoFlag(s) && Count(args) <= 1 && Reasoning(s).Some?
    ensures var once := ReasonedArgs(json, Claude, Unmodelled(args, s) + ModelArgs(Claude, s), s);
            var twice := ReasonedArgs(json, Claude, Unmodelled(once, s) + ModelArgs(Claude, s), s);
            twice == once <==> !Unstable(json, Claude, args, s)
  {
    var m := ModelArgs(Claude, s);
    var b := Unmodelled(args, s);
    var r := Reasoning(s).value;
    ModelPass(Claude, args, s);
    UnmodelledCount(args, s);
    ModelArgsNeutral(Claude, s);
    var k, t := Kept(json, b, r), Tail(json, b, r);
    assert Kept(json, b + m, r) == k + m && Tail(json, b + m, r) == t by {
      NeutralSuffix(json, b, m);
      NeutralSuffix(json, Bare(b), m);
    }
    if Model(s).Some? {
      KeptNotModel(json, b, r);
    }
    TailIsBare(json, b, r);
    ModelAgain(Claude, k, t, s);
    ClaudeAgain(json, b, m, r);
    FoldsUnmodelled(json, args, s, r);
  }

  lemma CodexTwice(json: Json, args: seq<Arg>, s: Selection)
    requires AllGood(Codex, args) && SelectsNoFlag(s) && Reasoning(s).Some?
    ensures var once := ReasonedArgs(json, Codex, Unmodelled(args, s) + ModelArgs(Codex, s), s);
            ReasonedArgs(json, Codex, Unmodelled(once, s) + ModelArgs(Codex, s), s) == once
  {
    var m := ModelArgs(Codex, s);
    var b := Unmodelled(args, s);
    ModelPass(Codex, args, s);
    KeepGood(Codex, args, NotModel);
    var c := Valued("-c", MRE + Reasoning(s).value);
    assert forall i :: 0 <= i < |m| ==> Good(Codex, m[i]) && NotOverride(m[i]);
    CodexAgain(b, m, c);
    if Model(s).Some? {
      KeepNotModel(Codex, b, NotOverride);
    }
    ModelAgain(Codex, Keep(b, NotOverride), [c], s);
  }

  lemma OtherTwice(json: Json, family: Family, args: seq<Arg>, s: Selection)
    requires AllGood(family, args) && SelectsNoFlag(s) && (family.Claude? ==> Reasoning(s).None?)
    ensures var once := ReasonedArgs(json, family, Unmodelled(args, s) + ModelArgs(family, s), s);
            ReasonedArgs(json, family, Unmodelled(once, s) + ModelArgs(family, s), s) == once
  {
    if Reasoning(s).Some? && family.Codex? {
      CodexTwice(json, args, s);
    } else {
      var m := ModelArgs(family, s);
      var b := Unmodelled(args, s);
      ModelPass(family, args, s);
      KeepGood(family, args, NotModel);
      ModelAgain(family, b, [], s);
      assert b + m + [] == b + m && b + [] + m == b + m;
    }
  }

  /** The second splice of a good command's arguments. */
  lemma ArgsTwice(json: Json, family: Family, args: seq<Arg>, s: Selection)
    requires Lawful(json) && AllGood(family, args) && SelectsNoFlag(s) && (family.Claude? ==> Count(args) <= 1)
    ensures var once := AppliedArgs(json, family, args, s);
            AppliedArgs(json, family, once, s) == once <==> !Unstable(json, family, args, s)
  {
    if IsEmpty(s) {
      assert Reasoning(s).None?;
    } else if family.Claude? && Reasoning(s).Some? {
      ClaudeTwice(json, args, s);
    } else {
      OtherTwice(json, family, args, s);
    }
  }

  /** The command starts a program of the family before and after the splice. */
  lemma FamilyStaysToo(json: Json, family: Family, ts: seq<Token>, s: Selection)
    requires WellFormed(ts) && DetectFamily(ts) == Some(family) && SelectsNoFlag(s)
    ensures BinaryToken(Applied(json, ts, s)) == BinaryToken(ts) && DetectFamily(Applied(json, ts, s)) == Some(family)
  {
    FlattenParse(family, ts);
    AppliedParses(json, family, ts, s);
    FamilyStays(json, family, Parse(family, ts), s);
  }

  /** Splicing a selection a second time changes nothing, for every well-formed
      command and every selection, if and only if the command is not one whose
      settings fold into the module's own value. */
  lemma {:induction false} SecondSpliceChangesNothing(json: Json, ts: seq<Token>, s: Selection)
    requires Lawful(json) && WellFormed(ts) && SelectsNoFlag(s)
    ensures var once := Applied(json, ts, s);
            var family := DetectFamily(ts);
            Applied(json, once, s) == once <==>
              !(family.Some? && Unstable(json, family.value, Parse(family.value, ts), s))
  {
    if DetectFamily(ts).Some? {
      KnownFamilyTwice(json, DetectFamily(ts).value, ts, s);
    }
  }

  lemma {:induction false} KnownFamilyTwice(json: Json, family: Family, ts: seq<Token>, s: Selection)
    requires Lawful(json) && WellFormed(ts) && DetectFamily(ts) == Some(family) && SelectsNoFlag(s)
    ensures var once := Applied(json, ts, s);
            Applied(json, once, s) == once <==> !Unstable(json, family, Parse(family, ts), s)
  {
    var once := Applied(json, ts, s);
    AppliedParses(json, family, ts, s);
    FamilyStaysToo(json, family, ts, s);
    AppliedParses(json, family, once, s);
    FlattenParse(family, once);
    FlattenParse(family, Applied(json, once, s));
    ArgsTwice(json, family, Parse(family, ts), s);
  }
}
