/** The reasoning level a spliced command asks for. */
module LaunchLevels {
  import opened Basics
  import opened LaunchTokens
  import opened LaunchArgs
  import opened LaunchCommand
  import opened LaunchAlgebra
  import opened LaunchFamilies
  import opened LaunchStability
  import opened LaunchSettings

  predicate IsEffort(a: Arg) { !NotEffort(a) }
  predicate IsOverride(a: Arg) { !NotOverride(a) }

  /** Settings that can carry the level: an object, or none, that can be
      written with `ultracode` set. */
  ghost predicate CanCarry(json: Json, ts: seq<Token>) {
    Effective(json, ts).Object? && Render(json, WithUltracode(Effective(json, ts).settings)).Some?
  }

  ghost function Level(json: Json, ts: seq<Token>, reasoning: string): string {
    if reasoning != "ultracode" then reasoning else if CanCarry(json, ts) then "xhigh" else "ultracode"
  }

  lemma BareHasNoEffort(args: seq<Arg>)
    requires AllGood(Claude, args)
    ensures Keep(Bare(args), IsEffort) == []
  {
    var once := Keep(args, NotEffort);
    KeepGood(Claude, args, NotEffort);
    KeepGood(Claude, once, NotOwnPair);
    forall i | 0 <= i < |Bare(args)| ensures !IsEffort(Bare(args)[i]) {
      assert Bare(args)[i] in once;
    }
    KeepNone(Bare(args), IsEffort);
  }

  lemma RewritesAreNoEffort(json: Json, a: Arg)
    requires IsSettings(a)
    ensures !IsEffort(a) && Keep(ClearArg(json, a), IsEffort) == []
    ensures FoldArg(json, a).Some? ==> !IsEffort(FoldArg(json, a).value)
  {
    SettingsNotEffort(a);
    ClearArgValue(json, a);
    forall b | b in ClearArg(json, a) ensures !IsEffort(b) {
      SettingsNotEffort(b);
    }
    KeepNone(ClearArg(json, a), IsEffort);
    var o := ObjectOf(json, a);
    if FoldArg(json, a).Some? {
      WithValueIsSettings(a, Render(json, o.value["ultracode" := True]).value);
      SettingsNotEffort(FoldArg(json, a).value);
    }
  }

  lemma RewriteKeepsNoEffort(args: seq<Arg>, i: nat, middle: seq<Arg>)
    requires i < |args| && Keep(args, IsEffort) == [] && Keep(middle, IsEffort) == []
    ensures Keep(Spliced(args, i, middle), IsEffort) == []
  {
    SplicedParts(args, i, middle, IsEffort);
    SplicedParts(args, i, [args[i]], IsEffort);
    SplicedIs(args, i, args[i]);
  }

  /** The rewritten command keeps no effort argument of the preset. */
  lemma KeptHasNoEffort(json: Json, args: seq<Arg>, reasoning: string)
    requires AllGood(Claude, args)
    ensures Keep(Kept(json, args, reasoning), IsEffort) == []
  {
    var bare := Bare(args);
    BareHasNoEffort(args);
    var i := First(bare);
    if i < |bare| {
      RewritesAreNoEffort(json, bare[i]);
      RewriteKeepsNoEffort(bare, i, ClearArg(json, bare[i]));
      if FoldArg(json, bare[i]).Some? {
        var b := FoldArg(json, bare[i]).value;
        KeepOne(b, IsEffort);
        RewriteKeepsNoEffort(bare, i, [b]);
        SplicedIs(bare, i, b);
      }
    }
  }

  lemma TailIsTheEffort(t: seq<Arg>)
    requires 1 <= |t| <= 2 && t[0].Valued? && t[0].flag == "--effort"
    requires |t| == 2 ==> t[1] == Valued("--settings", ULTRACODE_ARG)
    ensures Keep(t, IsEffort) == [t[0]]
  {
    assert t == [t[0]] + t[1..];
    KeepConcat([t[0]], t[1..], IsEffort);
    KeepAll([t[0]], IsEffort);
    KeepNone(t[1..], IsEffort);
  }

  lemma KindIsCarrying(json: Json, ts: seq<Token>, args: seq<Arg>)
    requires Lawful(json) && WellFormed(ts) && DetectFamily(ts) == Some(Claude) && AllGood(Claude, args)
    requires SettingsArgs(args) == SettingsArgs(Parse(Claude, ts))
    ensures FoldArgsKind(json, Bare(args)).Opaque? <==> !CanCarry(json, ts)
  {
    var l := SettingsArgs(args);
    SettingsAreGood(ts);
    EffectiveIs(json, ts);
    SettingsOfBare(args);
    KeepIsSettings(Bare(args));
    OwnPairMeans(json);
    UltracodeMaps(map[]);
    UltracodeMaps(map["ultracode" := True]);
  }

  /** After a level is selected for Claude the command names exactly one
      effort: a plain level as it was chosen; for `ultracode`, `xhigh` when the
      settings afterwards switch it on, and `ultracode` itself exactly when the
      user's settings could not be made to. */
  lemma {:induction false} SelectedLevelWins(json: Json, ts: seq<Token>, s: Selection)
    requires Reasons(json, ts, s)
    ensures var once := Applied(json, ts, s);
            var level := Level(json, ts, Reasoning(s).value);
            && Keep(Parse(Claude, once), IsEffort) == [Valued("--effort", level)]
            && (Reasoning(s) == Some("ultracode") && level == "xhigh" ==>
                  && Effective(json, once).Object?
                  && "ultracode" in Effective(json, once).settings
                  && Effective(json, once).settings["ultracode"] == True)
  {
    FamilyExactly(ts, Claude);
    var args, r := Parse(Claude, ts), Reasoning(s).value;
    FlattenParse(Claude, ts);
    AppliedParses(json, Claude, ts, s);
    ModelPass(Claude, args, s);
    GoodConcat(Claude, Unmodelled(args, s), ModelArgs(Claude, s));
    var modelled := Unmodelled(args, s) + ModelArgs(Claude, s);
    SettingsOfModelled(Claude, args, s);
    KeptHasNoEffort(json, modelled, r);
    TailIsTheEffort(Tail(json, modelled, r));
    KeepConcat(Kept(json, modelled, r), Tail(json, modelled, r), IsEffort);
    KindIsCarrying(json, ts, modelled);
    if r == "ultracode" {
      UltracodeKeepsTheSettings(json, ts, s);
    }
  }

  /** After a level is selected for Codex the command holds exactly one
      reasoning override, and it is the selected one. */
  lemma SelectedOverrideWins(json: Json, ts: seq<Token>, s: Selection)
    requires WellFormed(ts) && SelectsNoFlag(s) && Starts(ts, "codex") && Reasoning(s).Some?
    ensures Keep(Parse(Codex, Applied(json, ts, s)), IsOverride) == [Valued("-c", MRE + Reasoning(s).value)]
  {
    FamilyExactly(ts, Codex);
    var args := Parse(Codex, ts);
    FlattenParse(Codex, ts);
    AppliedParses(json, Codex, ts, s);
    ModelPass(Codex, args, s);
    GoodConcat(Codex, Unmodelled(args, s), ModelArgs(Codex, s));
    var modelled := Unmodelled(args, s) + ModelArgs(Codex, s);
    KeepGood(Codex, modelled, NotOverride);
    var override := Valued("-c", MRE + Reasoning(s).value);
    KeepConcat(Keep(modelled, NotOverride), [override], IsOverride);
    KeepNone(Keep(modelled, NotOverride), IsOverride);
    KeepAll([override], IsOverride);
  }
}
