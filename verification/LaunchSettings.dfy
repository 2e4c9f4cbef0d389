/** What a splice does to the user's settings, and to everything it was not
    asked to change. */
module LaunchSettings {
  import opened Basics
  import opened LaunchTokens
  import opened LaunchArgs
  import opened LaunchCommand
  import opened LaunchAlgebra
  import opened LaunchFamilies
  import opened LaunchStability

  /** The settings the CLI ends up with: those of an object, none being the
      empty object, or whatever a value means that is not one. */
  datatype Effect = Object(settings: Settings) | Verbatim(value: string)

  function Effective(json: Json, ts: seq<Token>): Effect {
    var slot := FindSlot(ts);
    if slot.None? then Object(map[])
    else
      var parsed := ParseObject(json, SlotValue(ts, slot.value));
      if parsed.Some? then Object(parsed.value) else Verbatim(SlotValue(ts, slot.value))
  }

  function EffectOf(json: Json, l: seq<Arg>): Effect
    requires l != [] ==> IsSettings(l[0])
  {
    if l == [] then Object(map[])
    else if ObjectOf(json, l[0]).Some? then Object(ObjectOf(json, l[0]).value)
    else Verbatim(SettingsValue(l[0]))
  }

  function SettingsArgs(args: seq<Arg>): (l: seq<Arg>)
    ensures l != [] ==> IsSettings(l[0])
  {
    KeepIsSettings(args);
    Keep(args, IsSettings)
  }

  lemma {:induction false} KeepIsSettings(args: seq<Arg>)
    ensures forall i :: 0 <= i < |Keep(args, IsSettings)| ==> IsSettings(Keep(args, IsSettings)[i])
    ensures Keep(args, IsSettings) != [] <==> First(args) < |args|
    ensures First(args) < |args| ==> Keep(args, IsSettings)[0] == args[First(args)]
  {
    if args != [] {
      KeepIsSettings(args[1..]);
    }
  }

  lemma EffectiveIs(json: Json, ts: seq<Token>)
    requires AllGood(Claude, Parse(Claude, ts))
    ensures Effective(json, ts) == EffectOf(json, SettingsArgs(Parse(Claude, ts)))
  {
    var args := Parse(Claude, ts);
    FlattenParse(Claude, ts);
    SlotIsFirst(args);
    KeepIsSettings(args);
    if First(args) < |args| {
      SlotValueIs(args, First(args));
    }
  }

  // ------------------------------------------- the settings argument's fate

  function NotOwn(l: seq<Arg>): seq<Arg> {
    if l != [] && NotOwnPair(l[0]) then l else []
  }

  /** What becomes of the settings arguments, of which there is at most one. */
  function After(json: Json, l: seq<Arg>, reasoning: string): seq<Arg>
    requires l != [] ==> IsSettings(l[0])
  {
    var b := NotOwn(l);
    if reasoning == "ultracode" then
      if b == [] then [Valued("--settings", ULTRACODE_ARG)]
      else if FoldArg(json, b[0]).Some? then [FoldArg(json, b[0]).value]
      else b
    else if b == [] then [] else ClearArg(json, b[0])
  }

  lemma {:induction false} KeepSwap(args: seq<Arg>, p: Arg -> bool, q: Arg -> bool)
    ensures Keep(Keep(args, p), q) == Keep(Keep(args, q), p)
  {
    if args != [] {
      KeepSwap(args[1..], p, q);
      var rest := args[1..];
      assert p(args[0]) ==> Keep(args, p)[1..] == Keep(rest, p);
      assert q(args[0]) ==> Keep(args, q)[1..] == Keep(rest, q);
    }
  }

  lemma SettingsOfBare(args: seq<Arg>)
    requires Count(args) <= 1
    ensures SettingsArgs(Bare(args)) == NotOwn(SettingsArgs(args))
  {
    var l := SettingsArgs(args);
    KeepSwap(Keep(args, NotEffort), NotOwnPair, IsSettings);
    KeepSwap(args, NotEffort, IsSettings);
    if l != [] {
      assert l == [l[0]];
      SettingsNotEffort(l[0]);
      KeepAll(l, NotEffort);
      if NotOwnPair(l[0]) {
        KeepAll(l, NotOwnPair);
      } else {
        KeepNone(l, NotOwnPair);
      }
    }
  }

  lemma WithValueIsSettings(a: Arg, value: string)
    requires IsSettings(a)
    ensures IsSettings(WithValue(a, value))
  {
    if a.Single? {
      assert ("--settings=" + value)[..|"--settings="|] == "--settings=";
    }
  }

  lemma ClearArgIsSettings(json: Json, a: Arg)
    requires IsSettings(a)
    ensures Keep(ClearArg(json, a), IsSettings) == ClearArg(json, a)
  {
    forall value: string ensures IsSettings(WithValue(a, value)) {
      WithValueIsSettings(a, value);
    }
    KeepAll(ClearArg(json, a), IsSettings);
  }

  lemma SettingsOfKept(json: Json, args: seq<Arg>, reasoning: string)
    requires AllGood(Claude, args) && Count(args) <= 1
    ensures SettingsArgs(Kept(json, args, reasoning) + Tail(json, args, reasoning)) ==
              After(json, SettingsArgs(args), reasoning)
  {
    var bare := Bare(args);
    var k, t := Kept(json, args, reasoning), Tail(json, args, reasoning);
    BareIsBare(args);
    SettingsOfBare(args);
    KeepIsSettings(bare);
    KeepConcat(k, t, IsSettings);
    SettingsOfTail(t);
    var i := First(bare);
    if i < |bare| {
      OnlyOne(bare);
      if reasoning != "ultracode" {
        SettingsOfSplice(bare, i, ClearArg(json, bare[i]));
        ClearArgIsSettings(json, bare[i]);
      } else if FoldArg(json, bare[i]).Some? {
        WithValueIsSettings(bare[i], Render(json, ObjectOf(json, bare[i]).value["ultracode" := True]).value);
        OneRewritten(bare, FoldArg(json, bare[i]).value);
      }
    }
  }

  lemma SettingsOfTail(t: seq<Arg>)
    requires |t| == 1 ==> t[0].Valued? && t[0].flag == "--effort"
    requires |t| == 2 ==> t[0].Valued? && t[0].flag == "--effort" && t[1] == Valued("--settings", ULTRACODE_ARG)
    requires 1 <= |t| <= 2
    ensures Keep(t, IsSettings) == t[1..]
  {
    assert t == [t[0]] + t[1..];
    KeepConcat([t[0]], t[1..], IsSettings);
    KeepNone([t[0]], IsSettings);
    KeepAll(t[1..], IsSettings);
  }

  lemma SettingsOfModelled(family: Family, args: seq<Arg>, s: Selection)
    ensures SettingsArgs(Unmodelled(args, s) + ModelArgs(family, s)) == SettingsArgs(args)
  {
    KeepConcat(Unmodelled(args, s), ModelArgs(family, s), IsSettings);
    KeepNone(ModelArgs(family, s), IsSettings);
    if Model(s).Some? {
      forall a | IsSettings(a) ensures NotModel(a) {
        SettingsNotModel(a);
      }
      KeepCoarser(args, NotModel, IsSettings);
    }
  }

  lemma SettingsOfApplied(json: Json, ts: seq<Token>, s: Selection)
    requires WellFormed(ts) && SelectsNoFlag(s) && DetectFamily(ts) == Some(Claude) && Reasoning(s).Some?
    ensures AllGood(Claude, Parse(Claude, Applied(json, ts, s))) && AllGood(Claude, Parse(Claude, ts))
    ensures SettingsArgs(Parse(Claude, Applied(json, ts, s))) ==
              After(json, SettingsArgs(Parse(Claude, ts)), Reasoning(s).value)
  {
    var args := Parse(Claude, ts);
    FlattenParse(Claude, ts);
    AppliedParses(json, Claude, ts, s);
    ModelPass(Claude, args, s);
    GoodConcat(Claude, Unmodelled(args, s), ModelArgs(Claude, s));
    SettingsOfModelled(Claude, args, s);
    SettingsOfKept(json, Unmodelled(args, s) + ModelArgs(Claude, s), Reasoning(s).value);
  }

  lemma OneSettingsAfter(json: Json, ts: seq<Token>, s: Selection)
    requires WellFormed(ts) && SelectsNoFlag(s) && DetectFamily(ts) == Some(Claude) && Reasoning(s).Some?
    ensures AllGood(Claude, Parse(Claude, Applied(json, ts, s)))
    ensures |Keep(Parse(Claude, Applied(json, ts, s)), IsSettings)| <= 1
  {
    SettingsOfApplied(json, ts, s);
    var l := SettingsArgs(Parse(Claude, ts));
    assert |After(json, l, Reasoning(s).value)| <= 1;
  }

  lemma StaysWellFormed(json: Json, ts: seq<Token>, s: Selection)
    requires WellFormed(ts) && SelectsNoFlag(s) && DetectFamily(ts) == Some(Claude) && Reasoning(s).Some?
    ensures WellFormed(Applied(json, ts, s)) && DetectFamily(Applied(json, ts, s)) == Some(Claude)
  {
    OneSettingsAfter(json, ts, s);
    FamilyStaysToo(json, Claude, ts, s);
  }

  // ---------------------------------------------- the meaning of its fate

  lemma OwnPairMeans(json: Json)
    requires Lawful(json)
    ensures ObjectOf(json, Valued("--settings", ULTRACODE_ARG)) == Some(map["ultracode" := True])
    ensures Render(json, map["ultracode" := True]).Some?
  {
    OwnJsonSurvives();
    UnquoteQuoted(ULTRACODE_JSON, ULTRACODE_JSON);
    assert json.parse(json.print_(map["ultracode" := True])) == Some(map["ultracode" := True]);
  }

  function WithUltracode(o: Settings): Settings { o["ultracode" := True] }
  function WithoutUltracode(o: Settings): Settings { o - {"ultracode"} }

  lemma UltracodeMaps(o: Settings)
    ensures WithoutUltracode(WithUltracode(o)) == WithoutUltracode(o)
    ensures WithUltracode(WithUltracode(o)) == WithUltracode(o)
    ensures "ultracode" !in o ==> WithoutUltracode(o) == o
    ensures WithUltracode(map[]) == map["ultracode" := True]
    ensures WithoutUltracode(map["ultracode" := True]) == map[] && WithoutUltracode(map[]) == map[]
  {
  }

  /** The settings argument, if any, is a good one. */
  ghost predicate AtMostOne(l: seq<Arg>) {
    |l| <= 1 && (l != [] ==> Good(Claude, l[0]) && IsSettings(l[0]))
  }

  lemma UltracodeEffect(json: Json, l: seq<Arg>)
    requires Lawful(json) && AtMostOne(l)
    ensures var before := EffectOf(json, l);
            var after := After(json, l, "ultracode");
            && |after| == 1 && IsSettings(after[0])
            && if before.Object? && Render(json, WithUltracode(before.settings)).Some?
               then EffectOf(json, after) == Object(WithUltracode(before.settings))
               else after == l
  {
    OwnPairMeans(json);
    if l == [] {
      UltracodeMaps(map[]);
    } else if !NotOwnPair(l[0]) {
      UltracodeMaps(map["ultracode" := True]);
    } else if ObjectOf(json, l[0]).Some? {
      PrintedReadsBack(json, l[0], WithUltracode(ObjectOf(json, l[0]).value));
    }
  }

  lemma PlainEffect(json: Json, l: seq<Arg>, reasoning: string)
    requires Lawful(json) && AtMostOne(l) && reasoning != "ultracode"
    ensures var before := EffectOf(json, l);
            var after := After(json, l, reasoning);
            && (after != [] ==> IsSettings(after[0]))
            && EffectOf(json, after) ==
                 if before.Object? && Render(json, WithoutUltracode(before.settings)).Some?
                 then Object(WithoutUltracode(before.settings)) else before
  {
    OwnPairMeans(json);
    EmptyRenders(json);
    UltracodeMaps(map[]);
    if l != [] && NotOwnPair(l[0]) && ObjectOf(json, l[0]).Some? {
      var o := ObjectOf(json, l[0]).value;
      UltracodeMaps(o);
      PrintedReadsBack(json, l[0], WithoutUltracode(o));
    }
  }

  lemma EmptyRenders(json: Json)
    requires Lawful(json)
    ensures Render(json, map[]).Some?
  {
    assert Survives(json.print_(map[]));
  }

  lemma RenderableAlike(json: Json, o: Settings)
    requires Lawful(json)
    ensures Render(json, WithUltracode(o)).Some? <==> Render(json, WithoutUltracode(o)).Some?
  {
    OwnJsonSurvives();
    var own := map["ultracode" := True];
    assert Survives(json.print_(own));
    assert json.clean("ultracode", own["ultracode"]);
    var more, less := WithUltracode(o), WithoutUltracode(o);
    assert Survives(json.print_(more)) <==> forall k :: k in more ==> json.clean(k, more[k]);
    assert Survives(json.print_(less)) <==> forall k :: k in less ==> json.clean(k, less[k]);
    assert forall k :: k in less ==> k in more && more[k] == less[k];
    assert forall k :: k in more ==> k == "ultracode" || k in less;
  }

  lemma SettingsAreGood(ts: seq<Token>)
    requires WellFormed(ts) && DetectFamily(ts) == Some(Claude)
    ensures AtMostOne(SettingsArgs(Parse(Claude, ts)))
  {
    KeepGood(Claude, Parse(Claude, ts), IsSettings);
  }

  // ------------------------------------------------------------- theorems

  /** A Claude command, well formed, and a selection that names a level. */
  ghost predicate Reasons(json: Json, ts: seq<Token>, s: Selection) {
    && Lawful(json) && WellFormed(ts) && SelectsNoFlag(s)
    && Starts(ts, "claude") && Reasoning(s).Some?
  }

  /** Selecting `ultracode` leaves exactly one settings flag. When the user's
      settings are an object that can be rewritten, or absent, they are that
      object with only `ultracode` set to true. Otherwise the user's own
      argument is still there, byte for byte. */
  lemma {:induction false} UltracodeKeepsTheSettings(json: Json, ts: seq<Token>, s: Selection)
    requires Reasons(json, ts, s) && Reasoning(s) == Some("ultracode")
    ensures var once := Applied(json, ts, s);
            var before := Effective(json, ts);
            && |SettingsArgs(Parse(Claude, once))| == 1
            && (if before.Object? && Render(json, WithUltracode(before.settings)).Some?
                then Effective(json, once) == Object(WithUltracode(before.settings))
                else SettingsArgs(Parse(Claude, once)) == SettingsArgs(Parse(Claude, ts))
                     && Effective(json, once) == before)
  {
    FamilyExactly(ts, Claude);
    SettingsOfApplied(json, ts, s);
    EffectiveIs(json, ts);
    EffectiveIs(json, Applied(json, ts, s));
    SettingsAreGood(ts);
    UltracodeEffect(json, SettingsArgs(Parse(Claude, ts)));
  }

  /** Selecting a plain level takes `ultracode` out of the user's settings
      object and leaves every other key; settings that are no object, or that
      cannot be rewritten, stay as they are. */
  lemma {:induction false} PlainLevelClearsOnlyUltracode(json: Json, ts: seq<Token>, s: Selection)
    requires Reasons(json, ts, s) && Reasoning(s) != Some("ultracode")
    ensures var before := Effective(json, ts);
            Effective(json, Applied(json, ts, s)) ==
              if before.Object? && Render(json, WithoutUltracode(before.settings)).Some?
              then Object(WithoutUltracode(before.settings)) else before
  {
    FamilyExactly(ts, Claude);
    SettingsOfApplied(json, ts, s);
    EffectiveIs(json, ts);
    EffectiveIs(json, Applied(json, ts, s));
    SettingsAreGood(ts);
    PlainEffect(json, SettingsArgs(Parse(Claude, ts)), Reasoning(s).value);
  }

  /** Switching to `ultracode` and back to a plain level gives the same
      settings as choosing the plain level directly. */
  lemma {:induction false} UltracodeAndBack(json: Json, ts: seq<Token>, ultra: Selection, plain: Selection)
    requires Reasons(json, ts, ultra) && Reasoning(ultra) == Some("ultracode")
    requires Reasons(json, ts, plain) && Reasoning(plain) != Some("ultracode")
    ensures Effective(json, Applied(json, Applied(json, ts, ultra), plain)) == Effective(json, Applied(json, ts, plain))
  {
    var once := Applied(json, ts, ultra);
    assert Reasons(json, once, plain) by {
      FamilyExactly(ts, Claude);
      StaysWellFormed(json, ts, ultra);
      FamilyExactly(once, Claude);
    }
    UltracodeKeepsTheSettings(json, ts, ultra);
    PlainLevelClearsOnlyUltracode(json, ts, plain);
    PlainLevelClearsOnlyUltracode(json, once, plain);
    var before := Effective(json, ts);
    if before.Object? {
      RenderableAlike(json, before.settings);
      UltracodeMaps(before.settings);
    }
  }

  lemma FoldedIsSettled(json: Json, l: seq<Arg>)
    requires Lawful(json) && AtMostOne(l)
    ensures !FoldsIntoOwnPair(json, After(json, l, "ultracode")[0])
  {
    OwnPairMeans(json);
    if l != [] && NotOwnPair(l[0]) && ObjectOf(json, l[0]).Some? {
      var o := ObjectOf(json, l[0]).value;
      OnlyUltracode(o);
      OnlyUltracode(WithUltracode(o));
      UltracodeMaps(o);
      PrintedReadsBack(json, l[0], WithUltracode(o));
    }
  }

  lemma OnlyTheFirstFolds(json: Json, args: seq<Arg>, a: Arg)
    requires SettingsArgs(args) == [a] && !FoldsIntoOwnPair(json, a)
    ensures !Folds(json, args, "ultracode")
  {
    if i :| 0 <= i < |args| && FoldsIntoOwnPair(json, args[i]) {
      KeepHas(args, IsSettings, args[i]);
      assert false;
    }
  }

  /** The exception does not last: from the second splice on, repeating it
      changes nothing, for every well-formed command. */
  lemma {:induction false} ThirdSpliceChangesNothing(json: Json, ts: seq<Token>, s: Selection)
    requires Lawful(json) && WellFormed(ts) && SelectsNoFlag(s)
    ensures var twice := Applied(json, Applied(json, ts, s), s);
            Applied(json, twice, s) == twice
  {
    SecondSpliceChangesNothing(json, ts, s);
    if DetectFamily(ts) == Some(Claude) && Unstable(json, Claude, Parse(Claude, ts), s) {
      var once := Applied(json, ts, s);
      StaysWellFormed(json, ts, s);
      SettingsOfApplied(json, ts, s);
      SettingsAreGood(ts);
      UltracodeEffect(json, SettingsArgs(Parse(Claude, ts)));
      FoldedIsSettled(json, SettingsArgs(Parse(Claude, ts)));
      OnlyTheFirstFolds(json, Parse(Claude, once), SettingsArgs(Parse(Claude, once))[0]);
      SecondSpliceChangesNothing(json, once, s);
    }
  }

  // ----------------------------------------------- what was not asked for

  /** The selection has no say over the argument. */
  predicate Untouched(family: Family, s: Selection, a: Arg) {
    && (Model(s).Some? ==> NotModel(a))
    && (Reasoning(s).Some? && family.Claude? ==> NotEffort(a) && NotSettings(a))
    && (Reasoning(s).Some? && family.Codex? ==> NotOverride(a))
  }

  /** The arguments the selection has no say over. */
  function Others(family: Family, s: Selection, args: seq<Arg>): seq<Arg> {
    Keep(args, a => Untouched(family, s, a))
  }

  predicate IsModel(a: Arg) { !NotModel(a) }

  lemma UntouchedByRewrite(args: seq<Arg>, i: nat, middle: seq<Arg>, p: Arg -> bool)
    requires i < |args| && !p(args[i]) && forall k :: 0 <= k < |middle| ==> !p(middle[k])
    ensures Keep(Spliced(args, i, middle), p) == Keep(args, p)
  {
    SplicedIs(args, i, args[i]);
    SplicedParts(args, i, middle, p);
    SplicedParts(args, i, [args[i]], p);
    KeepNone(middle, p);
    KeepNone([args[i]], p);
  }

  lemma SplicedParts(args: seq<Arg>, i: nat, middle: seq<Arg>, p: Arg -> bool)
    requires i < |args|
    ensures Keep(Spliced(args, i, middle), p) == Keep(args[..i], p) + Keep(middle, p) + Keep(args[i + 1..], p)
  {
    KeepConcat(args[..i] + middle, args[i + 1..], p);
    KeepConcat(args[..i], middle, p);
  }

  lemma RewritesAreSettings(json: Json, a: Arg)
    requires IsSettings(a)
    ensures forall k :: 0 <= k < |ClearArg(json, a)| ==> IsSettings(ClearArg(json, a)[k])
    ensures FoldArg(json, a).Some? ==> IsSettings(FoldArg(json, a).value)
  {
    ClearArgValue(json, a);
    if FoldArg(json, a).Some? {
      WithValueIsSettings(a, Render(json, ObjectOf(json, a).value["ultracode" := True]).value);
    }
  }

  lemma UntouchedByKept(json: Json, args: seq<Arg>, reasoning: string, p: Arg -> bool)
    requires forall a :: p(a) ==> NotEffort(a) && NotSettings(a)
    ensures Keep(Kept(json, args, reasoning) + Tail(json, args, reasoning), p) == Keep(args, p)
  {
    var bare := Bare(args);
    KeepCoarser(args, NotEffort, p);
    KeepCoarser(Keep(args, NotEffort), NotOwnPair, p);
    KeepConcat(Kept(json, args, reasoning), Tail(json, args, reasoning), p);
    KeepNone(Tail(json, args, reasoning), p);
    var i := First(bare);
    if i < |bare| {
      RewritesAreSettings(json, bare[i]);
      UntouchedByRewrite(bare, i, ClearArg(json, bare[i]), p);
      if FoldArg(json, bare[i]).Some? {
        UntouchedByRewrite(bare, i, [FoldArg(json, bare[i]).value], p);
        SplicedIs(bare, i, FoldArg(json, bare[i]).value);
      }
    }
  }

  lemma UntouchedByReasoned(json: Json, family: Family, args: seq<Arg>, s: Selection, p: Arg -> bool)
    requires Reasoning(s).Some? && family.Claude? ==> forall a :: p(a) ==> NotEffort(a) && NotSettings(a)
    requires Reasoning(s).Some? && family.Codex? ==> forall i :: 0 <= i < |args| && p(args[i]) ==> NotOverride(args[i])
    requires Reasoning(s).Some? && family.Codex? ==> !p(Valued("-c", MRE + Reasoning(s).value))
    ensures Keep(ReasonedArgs(json, family, args, s), p) == Keep(args, p)
  {
    if Reasoning(s).Some? {
      match family
      case Claude => UntouchedByKept(json, args, Reasoning(s).value, p);
      case Codex =>
        var override := Valued("-c", MRE + Reasoning(s).value);
        KeepCoarser(args, NotOverride, p);
        KeepConcat(Keep(args, NotOverride), [override], p);
        KeepNone([override], p);
      case _ =>
    }
  }

  lemma UntouchedByModel(family: Family, args: seq<Arg>, s: Selection, p: Arg -> bool)
    requires Model(s).Some? ==> forall a :: p(a) ==> NotModel(a)
    ensures Keep(Unmodelled(args, s) + ModelArgs(family, s), p) == Keep(args, p)
  {
    KeepConcat(Unmodelled(args, s), ModelArgs(family, s), p);
    KeepNone(ModelArgs(family, s), p);
    if Model(s).Some? {
      KeepCoarser(args, NotModel, p);
    }
  }

  lemma OthersOfApplied(json: Json, family: Family, args: seq<Arg>, s: Selection)
    ensures Others(family, s, ReasonedArgs(json, family, Unmodelled(args, s) + ModelArgs(family, s), s)) ==
              Others(family, s, args)
  {
    var p := a => Untouched(family, s, a);
    UntouchedByModel(family, args, s, p);
    UntouchedByReasoned(json, family, Unmodelled(args, s) + ModelArgs(family, s), s, p);
  }

  /** Every argument that the selection has no say over survives, in order,
      whatever the family. */
  lemma OtherArgumentsSurvive(json: Json, ts: seq<Token>, s: Selection, family: Family)
    requires WellFormed(ts) && SelectsNoFlag(s) && Starts(ts, FamilyName(family))
    ensures Others(family, s, Parse(family, Applied(json, ts, s))) == Others(family, s, Parse(family, ts))
  {
    FamilyExactly(ts, family);
    FlattenParse(family, ts);
    AppliedParses(json, family, ts, s);
    OthersOfApplied(json, family, Parse(family, ts), s);
  }

  lemma ModelsAmong(family: Family, args: seq<Arg>, s: Selection)
    requires AllGood(family, args) && SelectsNoFlag(s) && Model(s).Some?
    ensures var modelled := Unmodelled(args, s) + ModelArgs(family, s);
            AllGood(family, modelled) && Keep(modelled, IsModel) == ModelArgs(family, s)
  {
    ModelPass(family, args, s);
    KeepGood(family, args, NotModel);
    KeepConcat(Unmodelled(args, s), ModelArgs(family, s), IsModel);
    KeepNone(Unmodelled(args, s), IsModel);
    KeepAll(ModelArgs(family, s), IsModel);
    GoodConcat(family, Unmodelled(args, s), ModelArgs(family, s));
  }

  /** The selected model is the only one the command names afterwards. */
  lemma SelectedModelWins(json: Json, ts: seq<Token>, s: Selection, family: Family)
    requires WellFormed(ts) && SelectsNoFlag(s) && Starts(ts, FamilyName(family)) && Model(s).Some?
    ensures Keep(Parse(family, Applied(json, ts, s)), IsModel) ==
              [Valued("--model", ModelToken(family, Model(s).value, FieldValue(s.context)))]
  {
    FamilyExactly(ts, family);
    FlattenParse(family, ts);
    AppliedParses(json, family, ts, s);
    ModelsAmong(family, Parse(family, ts), s);
    forall a | IsModel(a) ensures NotEffort(a) && NotSettings(a) && (Good(Codex, a) ==> NotOverride(a)) {
      ModelIsNoOther(a);
    }
    UntouchedByReasoned(json, family, Unmodelled(Parse(family, ts), s) + ModelArgs(family, s), s, IsModel);
  }

  lemma ModelIsNoOther(a: Arg)
    requires IsModel(a)
    ensures NotEffort(a) && NotSettings(a) && (Good(Codex, a) ==> NotOverride(a))
  {
    if IsSettings(a) {
      SettingsNotModel(a);
    }
    if a.Single? {
      assert a.tok[2] == "--model="[2] == 'm' && "--effort="[2] == 'e';
      assert a.tok[0] == "--model="[0] == '-' && MRE[0] == 'm';
    }
  }
}
