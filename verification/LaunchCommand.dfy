/** What splicing a selection guarantees about the whole command: the selected
    flags win, everything else survives, a second splice changes nothing, and
    the user's settings are never lost. */
module LaunchCommand {
  import opened Basics
  import opened LaunchTokens
  import opened LaunchArgs

  // -------------------------------------------------------- assumptions made

  /** A command of a known family: every flag that the family's passes look for
      has its value, the binary is no flag, and a Claude command has at most
      one `--settings`. */
  ghost predicate WellFormed(ts: seq<Token>) {
    DetectFamily(ts).Some? ==>
      var family := DetectFamily(ts).value;
      && AllGood(family, Parse(family, ts))
      && !IsDash(BinaryToken(ts).value)
      && (family.Claude? ==> |Keep(Parse(family, ts), IsSettings)| <= 1)
  }

  ghost predicate SelectsNoFlag(s: Selection) {
    && (Model(s).Some? ==> !IsDash(Model(s).value))
    && (Reasoning(s).Some? ==> !IsDash(Reasoning(s).value))
  }

  // ------------------------------------------------------ splicing arguments

  function ModelArgs(family: Family, s: Selection): seq<Arg> {
    if Model(s).None? then []
    else [Valued("--model", ModelToken(family, Model(s).value, FieldValue(s.context)))]
  }

  function Unmodelled(args: seq<Arg>, s: Selection): seq<Arg> {
    if Model(s).None? then args else Keep(args, NotModel)
  }

  function Bare(args: seq<Arg>): seq<Arg> {
    Keep(Keep(args, NotEffort), NotOwnPair)
  }

  function EffortArgs(kind: Folding): seq<Arg> {
    match kind
    case Absent => [Valued("--effort", "xhigh"), Valued("--settings", ULTRACODE_ARG)]
    case Merged => [Valued("--effort", "xhigh")]
    case Opaque => [Valued("--effort", "ultracode")]
  }

  /** The part of the command that is kept, and the part that is appended. */
  function Kept(json: Json, args: seq<Arg>, reasoning: string): seq<Arg> {
    if reasoning == "ultracode" then FoldArgs(json, Bare(args)) else ClearArgs(json, Bare(args))
  }

  function Tail(json: Json, args: seq<Arg>, reasoning: string): seq<Arg> {
    if reasoning == "ultracode" then EffortArgs(FoldArgsKind(json, Bare(args))) else [Valued("--effort", reasoning)]
  }

  function ReasonedArgs(json: Json, family: Family, args: seq<Arg>, s: Selection): seq<Arg> {
    if Reasoning(s).None? then args
    else match family
      case Claude => Kept(json, args, Reasoning(s).value) + Tail(json, args, Reasoning(s).value)
      case Codex => Keep(args, NotOverride) + [Valued("-c", MRE + Reasoning(s).value)]
      case _ => args
  }

  function AppliedArgs(json: Json, family: Family, args: seq<Arg>, s: Selection): seq<Arg> {
    if IsEmpty(s) then args
    else ReasonedArgs(json, family, Unmodelled(args, s) + ModelArgs(family, s), s)
  }

  // --------------------------------------------------------- good arguments

  lemma SafeHasNoEquals(value: string)
    requires IsSafeArg(value)
    ensures !(MRE <= value)
  {
    assert MRE[|MRE| - 1] == '=' && MRE[0] == 'm';
  }

  lemma ModelTokenIsGood(family: Family, model: string, context: Option<string>)
    requires IsSafeModelArg(model) && !IsDash(model)
    ensures Good(family, Valued("--model", ModelToken(family, model, context)))
  {
    var tok := ModelToken(family, model, context);
    if tok[0] == '\'' {
      assert MRE[0] == 'm' && "-"[0] == '-';
    } else {
      assert tok == model && '[' !in model;
      SafeHasNoEquals(model);
    }
  }

  lemma RenderedIsGood(a: Arg, json: string)
    requires IsSettings(a) && Good(Claude, a)
    ensures Good(Claude, WithValue(a, "'" + json + "'")) && IsSettings(WithValue(a, "'" + json + "'"))
    ensures SettingsValue(WithValue(a, "'" + json + "'")) == "'" + json + "'"
  {
    var value := "'" + json + "'";
    assert value[0] == '\'' && MRE[0] == 'm' && "-"[0] == '-';
    if a.Single? {
      var tok := "--settings=" + value;
      assert |tok| > 10 && tok[|"--settings="|..] == value;
      assert tok[..|"--settings="|] == "--settings=";
    }
  }

  lemma GoodConcat(f: Family, a: seq<Arg>, b: seq<Arg>)
    requires AllGood(f, a) && AllGood(f, b)
    ensures AllGood(f, a + b)
  {
  }

  lemma FoldGood(json: Json, args: seq<Arg>)
    requires AllGood(Claude, args)
    ensures AllGood(Claude, FoldArgs(json, args))
  {
    var i := First(args);
    if i < |args| && FoldArg(json, args[i]).Some? {
      assert Good(Claude, args[i]);
      RenderedIsGood(args[i], json.print_(ObjectOf(json, args[i]).value["ultracode" := True]));
    }
  }

  lemma ClearGood(json: Json, args: seq<Arg>)
    requires AllGood(Claude, args)
    ensures AllGood(Claude, ClearArgs(json, args))
  {
    var i := First(args);
    if i < |args| {
      var o := ObjectOf(json, args[i]);
      assert Good(Claude, args[i]);
      if o.Some? {
        RenderedIsGood(args[i], json.print_(o.value - {"ultracode"}));
      }
      assert AllGood(Claude, ClearArg(json, args[i]));
      assert AllGood(Claude, args[..i]) && AllGood(Claude, args[i + 1..]);
    }
  }

  lemma BareGood(args: seq<Arg>)
    requires AllGood(Claude, args)
    ensures AllGood(Claude, Bare(args))
  {
    KeepGood(Claude, args, NotEffort);
    KeepGood(Claude, Keep(args, NotEffort), NotOwnPair);
  }

  lemma EffortArgsGood(kind: Folding)
    ensures AllGood(Claude, EffortArgs(kind)) && Flatten(EffortArgs(kind)) == EffortTokens(kind)
  {
    var effort := if kind.Opaque? then Valued("--effort", "ultracode") else Valued("--effort", "xhigh");
    var own := Valued("--settings", ULTRACODE_ARG);
    assert effort.value[0] != '-' && own.value[0] == '\'' && effort.value[0] != 'm' && MRE[0] == 'm' && "-"[0] == '-';
    assert Good(Claude, effort) && Good(Claude, own);
    if kind.Absent? {
      assert EffortArgs(kind)[1..] == [own] && [own][1..] == [];
      assert Flatten([own]) == Tokens(own) + Flatten([]);
    } else {
      assert EffortArgs(kind)[1..] == [];
    }
  }

  lemma FlattenOne(a: Arg)
    ensures Flatten([a]) == Tokens(a)
  {
    assert [a][1..] == [];
  }

  // -------------------------------------------- the passes, seen as arguments

  lemma {:induction false} KeepSame(args: seq<Arg>, p: Arg -> bool, q: Arg -> bool)
    requires forall a :: p(a) == q(a)
    ensures Keep(args, p) == Keep(args, q)
  {
    if args != [] {
      KeepSame(args[1..], p, q);
    }
  }

  lemma ModelPass(family: Family, args: seq<Arg>, s: Selection)
    requires AllGood(family, args) && SelectsNoFlag(s)
    ensures AllGood(family, Unmodelled(args, s)) && AllGood(family, ModelArgs(family, s))
    ensures WithModel(family, Flatten(args), s) == Flatten(Unmodelled(args, s) + ModelArgs(family, s))
  {
    if Model(s).Some? {
      ModelTokenIsGood(family, Model(s).value, FieldValue(s.context));
      KeepGood(family, args, NotModel);
      StripIsKeep(family, args, "--model", Some("-m"));
      KeepSame(args, a => NotFlag(a, "--model", Some("-m")), NotModel);
      FlattenConcat(Unmodelled(args, s), ModelArgs(family, s));
      FlattenOne(ModelArgs(family, s)[0]);
    } else {
      assert args + [] == args;
    }
  }

  lemma ClaudePass(json: Json, args: seq<Arg>, reasoning: string)
    requires AllGood(Claude, args) && IsSafeArg(reasoning) && !IsDash(reasoning)
    ensures AllGood(Claude, Kept(json, args, reasoning)) && AllGood(Claude, Tail(json, args, reasoning))
    ensures WithClaudeEffort(json, Flatten(args), reasoning) ==
              Flatten(Kept(json, args, reasoning) + Tail(json, args, reasoning))
  {
    StripIsKeep(Claude, args, "--effort", None);
    KeepSame(args, a => NotFlag(a, "--effort", None), NotEffort);
    KeepGood(Claude, args, NotEffort);
    StripUltracodeIsKeep(Keep(args, NotEffort));
    var bare := Bare(args);
    BareGood(args);
    assert StripUltracode(Strip(Flatten(args), "--effort", None)) == Flatten(bare);
    FlattenConcat(Kept(json, args, reasoning), Tail(json, args, reasoning));
    if reasoning == "ultracode" {
      FoldedIsFoldArgs(json, bare);
      FoldGood(json, bare);
      EffortArgsGood(FoldArgsKind(json, bare));
    } else {
      ClearedIsClearArgs(json, bare);
      ClearGood(json, bare);
      SafeHasNoEquals(reasoning);
      FlattenOne(Valued("--effort", reasoning));
    }
  }

  lemma CodexPass(args: seq<Arg>, reasoning: string)
    requires AllGood(Codex, args)
    ensures var out := Keep(args, NotOverride) + [Valued("-c", MRE + reasoning)];
            AllGood(Codex, out) && StripCodex([], Flatten(args)) + ["-c", MRE + reasoning] == Flatten(out)
  {
    var override := Valued("-c", MRE + reasoning);
    StripCodexIsKeep([], args);
    KeepGood(Codex, args, NotOverride);
    FlattenConcat(Keep(args, NotOverride), [override]);
    FlattenOne(override);
    assert override.value[0] == 'm' && "-"[0] == '-';
    assert Good(Codex, override);
    assert [] + Flatten(Keep(args, NotOverride)) == Flatten(Keep(args, NotOverride));
  }

  /** On well-formed commands the splice works argument by argument. */
  lemma AppliedIsAppliedArgs(json: Json, family: Family, args: seq<Arg>, s: Selection)
    requires DetectFamily(Flatten(args)) == Some(family) && AllGood(family, args) && SelectsNoFlag(s)
    ensures AllGood(family, AppliedArgs(json, family, args, s))
    ensures Applied(json, Flatten(args), s) == Flatten(AppliedArgs(json, family, args, s))
  {
    if !IsEmpty(s) {
      ModelPass(family, args, s);
      var modelled := Unmodelled(args, s) + ModelArgs(family, s);
      GoodConcat(family, Unmodelled(args, s), ModelArgs(family, s));
      if Reasoning(s).Some? {
        match family
        case Claude =>
          ClaudePass(json, modelled, Reasoning(s).value);
          GoodConcat(Claude, Kept(json, modelled, Reasoning(s).value), Tail(json, modelled, Reasoning(s).value));
        case Codex =>
          CodexPass(modelled, Reasoning(s).value);
        case _ =>
      }
    }
  }

  /** The same for a token list, with the arguments it parses into. */
  lemma AppliedParses(json: Json, family: Family, ts: seq<Token>, s: Selection)
    requires DetectFamily(ts) == Some(family) && AllGood(family, Parse(family, ts)) && SelectsNoFlag(s)
    ensures AllGood(family, Parse(family, Applied(json, ts, s)))
    ensures Parse(family, Applied(json, ts, s)) == AppliedArgs(json, family, Parse(family, ts), s)
    ensures Applied(json, ts, s) == Flatten(AppliedArgs(json, family, Parse(family, ts), s))
  {
    FlattenParse(family, ts);
    AppliedIsAppliedArgs(json, family, Parse(family, ts), s);
    ParseFlatten(family, AppliedArgs(json, family, Parse(family, ts), s));
  }
}
