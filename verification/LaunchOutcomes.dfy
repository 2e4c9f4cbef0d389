/** What a splice comes to in tokens, and what the shell makes of the values it
    puts into the command. */
module LaunchOutcomes {
  import opened Basics
  import opened Text
  import opened LaunchTokens
  import opened LaunchFamilies
  import opened ShellQuoting

  // --------------------------------------------------------------- the fields

  ghost predicate AllWhitespace(s: string) {
    forall i :: 0 <= i < |s| ==> IsWhitespace(s[i])
  }

  lemma {:induction false} TrimStartOfPadded(before: string, v: string)
    requires AllWhitespace(before) && (v != "" ==> !IsWhitespace(v[0]))
    ensures TrimStart(before + v) == v
  {
    if before == "" {
      assert before + v == v;
    } else {
      assert IsWhitespace(before[0]) && (before + v)[1..] == before[1..] + v;
      TrimStartOfPadded(before[1..], v);
    }
  }

  lemma {:induction false} TrimEndOfPadded(v: string, after: string)
    requires AllWhitespace(after) && (v != "" ==> !IsWhitespace(v[|v| - 1]))
    ensures TrimEnd(v + after) == v
    decreases |after|
  {
    if after == "" {
      assert v + after == v;
    } else {
      var last := |after| - 1;
      assert IsWhitespace(after[last]) && (v + after)[..|v + after| - 1] == v + after[..last];
      TrimEndOfPadded(v, after[..last]);
    }
  }

  /** A field counts as what is left between surrounding whitespace, and a field
      of nothing but whitespace as none. */
  lemma FieldOfPadded(before: string, v: string, after: string)
    requires AllWhitespace(before) && AllWhitespace(after)
    requires v != "" ==> !IsWhitespace(v[0]) && !IsWhitespace(v[|v| - 1])
    ensures FieldValue(Some(before + v + after)) == if v == "" then None else Some(v)
  {
    if v == "" {
      assert before + v + after == (before + after) + v;
      TrimStartOfPadded(before + after, v);
    } else {
      assert before + v + after == before + (v + after);
      TrimStartOfPadded(before, v + after);
      TrimEndOfPadded(v, after);
    }
  }

  /** A letter that values may hold unquoted. */
  predicate IsPlain(c: char) {
    'a' <= c <= 'z' || 'A' <= c <= 'Z' || '0' <= c <= '9' || c == '.' || c == '_' || c == '-' || c == '/' || c == ':'
  }

  ghost predicate IsWord(v: string) {
    v != "" && v[0] != '-' && forall i :: 0 <= i < |v| ==> IsPlain(v[i])
  }

  // ------------------------------------------------------- commands without flags

  /** Tokens that no pass takes for a flag or an override. */
  ghost predicate IsForeign(ts: seq<Token>) {
    forall i :: 0 <= i < |ts| ==> (ts[i] != "" ==> ts[i][0] != '-') && !("model_reasoning_effort=" <= ts[i])
  }

  ghost predicate NoClaudeFlag(ts: seq<Token>) {
    forall i :: 0 <= i < |ts| ==>
      && ts[i] != "--effort" && !("--effort=" <= ts[i])
      && ts[i] != "--settings" && !("--settings=" <= ts[i])
  }

  lemma {:induction false} StripsNothing(ts: seq<Token>, long: Token, short: Option<Token>)
    requires forall i :: 0 <= i < |ts| ==> !IsFlag(ts[i], long, short) && !(long + "=" <= ts[i])
    ensures Strip(ts, long, short) == ts
  {
    if ts != [] {
      assert !IsFlag(ts[0], long, short);
      assert forall i :: 0 <= i < |ts[1..]| ==> ts[1..][i] == ts[i + 1];
      StripsNothing(ts[1..], long, short);
    }
  }

  lemma {:induction false} StripsNoPair(ts: seq<Token>)
    requires NoClaudeFlag(ts)
    ensures StripUltracode(ts) == ts && FindSlot(ts) == None
  {
    if ts != [] {
      assert ts[0] != "--settings";
      assert forall i :: 0 <= i < |ts[1..]| ==> ts[1..][i] == ts[i + 1];
      StripsNoPair(ts[1..]);
    }
  }

  lemma {:induction false} StripsNoOverride(done: seq<Token>, ts: seq<Token>)
    requires forall i :: 0 <= i < |ts| ==> !("model_reasoning_effort=" <= ts[i])
    ensures StripCodex(done, ts) == done + ts
    decreases |ts|
  {
    if ts == [] {
      assert done + ts == done;
    } else {
      assert !(MRE <= ts[0]);
      assert forall i :: 0 <= i < |ts[1..]| ==> ts[1..][i] == ts[i + 1];
      StripsNoOverride(done + [ts[0]], ts[1..]);
      assert done + [ts[0]] + ts[1..] == done + ts;
    }
  }

  lemma WordIsSafe(v: string)
    requires IsWord(v)
    ensures IsSafeArg(v) && IsSafeModelArg(v) && '[' !in v
    ensures FieldValue(Some(v)) == Some(v)
  {
    forall i | 0 <= i < |v| ensures v[i] != '[' && !IsWhitespace(v[i]) {
      assert IsPlain(v[i]);
    }
    FieldOfPadded("", v, "");
    assert "" + v + "" == v;
  }

  lemma WordIsNoOverride(v: string)
    requires IsWord(v)
    ensures !("model_reasoning_effort=" <= v)
  {
    assert "model_reasoning_effort="[22] == '=';
    assert |v| > 22 ==> IsPlain(v[22]);
  }

  /** Tokens that are no flag, and `--model`, are nothing to the Claude passes. */
  lemma ForeignIsNoFlag(tok: Token)
    requires (tok != "" ==> tok[0] != '-') || tok == "--model"
    ensures NoClaudeFlag([tok])
  {
    assert "--model"[2] == 'm' && "--effort"[2] == 'e' && "--settings"[2] == 's';
  }

  lemma ModelledHasNoFlag(ts: seq<Token>, model: string)
    requires IsForeign(ts) && IsWord(model)
    ensures NoClaudeFlag(ts + ["--model", model])
  {
    var all := ts + ["--model", model];
    forall i | 0 <= i < |all| ensures NoClaudeFlag([all[i]]) && all[i] == [all[i]][0] {
      ForeignIsNoFlag(all[i]);
    }
  }

  lemma ModelledHasNoOverride(ts: seq<Token>, model: string)
    requires IsForeign(ts) && IsWord(model)
    ensures StripCodex([], ts + ["--model", model]) == ts + ["--model", model]
  {
    var all := ts + ["--model", model];
    WordIsNoOverride(model);
    assert "--model"[0] == '-' && "model_reasoning_effort="[0] == 'm';
    forall i | 0 <= i < |all| ensures !("model_reasoning_effort=" <= all[i]) {
      if i < |ts| {
        assert all[i] == ts[i];
      }
    }
    StripsNoOverride([], all);
    assert [] + all == all;
  }

  lemma FreshModel(family: Family, ts: seq<Token>, s: Selection, model: string)
    requires IsForeign(ts) && IsWord(model) && s.model == Some(model) && s.context == None
    ensures WithModel(family, ts, s) == ts + ["--model", model]
  {
    WordIsSafe(model);
    forall i | 0 <= i < |ts| ensures !IsFlag(ts[i], "--model", Some("-m")) && !("--model" + "=" <= ts[i]) {
      assert "--model"[0] == '-';
    }
    StripsNothing(ts, "--model", Some("-m"));
  }

  lemma FreshEffort(json: Json, ts: seq<Token>, level: string)
    requires NoClaudeFlag(ts)
    ensures WithClaudeEffort(json, ts, level) ==
              ts +
              if level == "ultracode" then ["--effort", "xhigh", "--settings", "'{\"ultracode\":true}'"]
              else ["--effort", level]
  {
    StripsNothing(ts, "--effort", None);
    StripsNoPair(ts);
    assert ULTRACODE_ARG == "'{\"ultracode\":true}'";
  }

  /** The reasoning part of the outcome, per family. */
  lemma FreshReasoning(json: Json, family: Family, ts: seq<Token>, s: Selection, model: string, level: string)
    requires IsForeign(ts) && IsWord(model) && IsWord(level) && s.reasoning == Some(level)
    ensures WithReasoning(json, family, ts + ["--model", model], s) ==
              ts + ["--model", model] +
              if family.Claude? && level == "ultracode" then
                ["--effort", "xhigh", "--settings", "'{\"ultracode\":true}'"]
              else if family.Claude? then ["--effort", level]
              else if family.Codex? then ["-c", "model_reasoning_effort=" + level]
              else []
  {
    var modelled := ts + ["--model", model];
    WordIsSafe(level);
    match family
    case Claude =>
      ModelledHasNoFlag(ts, model);
      FreshEffort(json, modelled, level);
    case Codex => ModelledHasNoOverride(ts, model);
    case _ => assert modelled + [] == modelled;
  }

  /** The command that comes of one without flags, token by token, for every
      program. */
  lemma FreshCommand(json: Json, ts: seq<Token>, k: nat, dir: string, name: string, model: string, level: string)
    requires StartsAt(ts, k, dir, name) && IsForeign(ts) && IsWord(model) && IsWord(level)
    ensures var modelled := ts + ["--model", model];
            Applied(json, ts, Selection(Some(model), Some(level), None)) ==
              if name == "claude" && level == "ultracode" then
                modelled + ["--effort", "xhigh", "--settings", "'{\"ultracode\":true}'"]
              else if name == "claude" then modelled + ["--effort", level]
              else if name == "codex" then modelled + ["-c", "model_reasoning_effort=" + level]
              else if name == "opencode" || name == "gemini" then modelled
              else ts
  {
    var s := Selection(Some(model), Some(level), None);
    WordIsSafe(model);
    FamilyByName(ts, k, dir, name);
    AppliedByPasses(json, ts, s);
    if DetectFamily(ts).Some? {
      var family := DetectFamily(ts).value;
      FreshModel(family, ts, s, model);
      FreshReasoning(json, family, ts, s, model, level);
      assert ts + ["--model", model] + [] == ts + ["--model", model];
    }
  }

  lemma AppliedByPasses(json: Json, ts: seq<Token>, s: Selection)
    ensures Applied(json, ts, s) ==
              if IsEmpty(s) || DetectFamily(ts).None? then ts
              else WithReasoning(json, DetectFamily(ts).value, WithModel(DetectFamily(ts).value, ts, s), s)
  {
  }

  // ------------------------------------------------ what a preset had baked in

  lemma {:induction false} CodexReadsOn(done: seq<Token>, a: seq<Token>, b: seq<Token>)
    ensures StripCodex(done, a + b) == StripCodex(StripCodex(done, a), b)
    decreases |a|
  {
    if a == [] {
      assert a + b == b;
    } else {
      assert (a + b)[0] == a[0] && (a + b)[1..] == a[1..] + b;
      var next := if !(MRE <= a[0]) then done + [a[0]]
                  else if done != [] && IsConfig(done[|done| - 1]) then done[..|done| - 1]
                  else done;
      CodexReadsOn(next, a[1..], b);
    }
  }

  ghost predicate NoOverride(ts: seq<Token>) {
    forall i :: 0 <= i < |ts| ==> !("model_reasoning_effort=" <= ts[i])
  }

  /** A baked-in override goes with its config flag, in either spelling, and
      nothing else goes. */
  lemma BakedOverrideGoes(before: seq<Token>, flag: Token, level: string, after: seq<Token>)
    requires NoOverride(before) && NoOverride(after) && (flag == "-c" || flag == "--config")
    ensures StripCodex([], before + [flag, "model_reasoning_effort=" + level] + after) == before + after
  {
    var tok := "model_reasoning_effort=" + level;
    var pair := [flag, tok];
    assert tok[..|MRE|] == MRE && flag[0] == '-' && MRE[0] == 'm';
    CodexReadsOn([], before + pair, after);
    CodexReadsOn([], before, pair);
    StripsNoOverride([], before);
    assert [] + before == before;
    OverridePairGoes(before, flag, tok);
    StripsNoOverride(before, after);
  }

  lemma OverridePairGoes(done: seq<Token>, flag: Token, tok: Token)
    requires IsConfig(flag) && !(MRE <= flag) && MRE <= tok
    ensures StripCodex(done, [flag, tok]) == done
  {
    assert [flag, tok][1..] == [tok] && [tok][1..] == [];
    assert (done + [flag])[..|done|] == done;
    assert StripCodex(done, [flag, tok]) == StripCodex(done + [flag], [tok]) == StripCodex(done, []);
  }

  lemma {:induction false} StripReadsOn(a: seq<Token>, b: seq<Token>, long: Token, short: Option<Token>)
    requires forall i :: 0 <= i < |a| ==> !IsFlag(a[i], long, short)
    ensures Strip(a + b, long, short) == Strip(a, long, short) + Strip(b, long, short)
  {
    if a == [] {
      assert a + b == b;
    } else {
      assert !IsFlag(a[0], long, short);
      assert (a + b)[0] == a[0] && (a + b)[1..] == a[1..] + b;
      assert forall i :: 0 <= i < |a[1..]| ==> a[1..][i] == a[i + 1];
      StripReadsOn(a[1..], b, long, short);
    }
  }

  ghost predicate NeitherForm(ts: seq<Token>, long: Token, short: Option<Token>) {
    forall i :: 0 <= i < |ts| ==> !IsFlag(ts[i], long, short) && !(long + "=" <= ts[i])
  }

  /** A baked-in flag goes with its value, written long, short or joined by an
      equals sign, and nothing else goes. */
  lemma BakedFlagGoes(before: seq<Token>, value: string, after: seq<Token>, long: Token, short: Option<Token>)
    requires long == "--model" || long == "--effort"
    requires NeitherForm(before, long, short) && NeitherForm(after, long, short)
    ensures Strip(before + [long, value] + after, long, short) == before + after
    ensures short.Some? ==> Strip(before + [short.value, value] + after, long, short) == before + after
    ensures short != Some(long + "=" + value) ==>
              Strip(before + [long + "=" + value] + after, long, short) == before + after
  {
    StripsNothing(before, long, short);
    StripsNothing(after, long, short);
    PairGoes(before, long, value, after, long, short);
    if short.Some? {
      PairGoes(before, short.value, value, after, long, short);
    }
    if short != Some(long + "=" + value) {
      JoinedGoes(before, long + "=" + value, after, long, short);
    }
  }

  lemma JoinedGoes(before: seq<Token>, joined: Token, after: seq<Token>, long: Token, short: Option<Token>)
    requires long + "=" <= joined && short != Some(joined) && NeitherForm(before, long, short)
    requires Strip(before, long, short) == before && Strip(after, long, short) == after
    ensures Strip(before + [joined] + after, long, short) == before + after
  {
    assert |joined| > |long|;
    StripReadsOn(before, [joined] + after, long, short);
    assert before + [joined] + after == before + ([joined] + after);
    assert ([joined] + after)[1..] == after;
  }

  lemma PairGoes(before: seq<Token>, flag: Token, value: string, after: seq<Token>, long: Token, short: Option<Token>)
    requires IsFlag(flag, long, short) && NeitherForm(before, long, short)
    requires Strip(before, long, short) == before && Strip(after, long, short) == after
    ensures Strip(before + [flag, value] + after, long, short) == before + after
  {
    StripReadsOn(before, [flag, value] + after, long, short);
    assert before + [flag, value] + after == before + ([flag, value] + after);
    assert ([flag, value] + after)[2..] == after;
  }

  // ----------------------------------------------------------- refused values

  /** A field that holds a letter that is neither plain nor among `others`. */
  ghost predicate HoldsUnsafe(field: Option<string>, others: string) {
    FieldValue(field).Some? && exists c :: c in FieldValue(field).value && !IsPlain(c) && c !in others
  }

  /** A model or a level with a letter that is not plain is left out, as if it had
      not been selected. (A model may carry one pair of brackets.) */
  lemma UnsafeValuesAreLeftOut(json: Json, ts: seq<Token>, s: Selection)
    ensures HoldsUnsafe(s.model, "[]") ==> Applied(json, ts, s) == Applied(json, ts, s.(model := None))
    ensures HoldsUnsafe(s.reasoning, "") ==> Applied(json, ts, s) == Applied(json, ts, s.(reasoning := None))
  {
    AppliedByPasses(json, ts, s);
    if HoldsUnsafe(s.model, "[]") {
      var c :| c in FieldValue(s.model).value && !IsPlain(c) && c !in "[]";
      UnsafeModel(FieldValue(s.model).value, c);
      AppliedByPasses(json, ts, s.(model := None));
    }
    if HoldsUnsafe(s.reasoning, "") {
      AppliedByPasses(json, ts, s.(reasoning := None));
    }
  }

  lemma UnsafeModel(v: string, c: char)
    requires c in v && !IsPlain(c) && c != '[' && c != ']'
    ensures !IsSafeModelArg(v)
  {
    var i :| 0 <= i < |v| && v[i] == c;
    var open := Find(v, '[');
    if open < |v| && v[|v| - 1] == ']' {
      if i < open {
        assert v[..open][i] == c;
      } else {
        assert v[open + 1..|v| - 1][i - open - 1] == c;
      }
    }
  }

  predicate IsSuffixLetter(c: char) {
    'a' <= c <= 'z' || 'A' <= c <= 'Z' || '0' <= c <= '9'
  }

  /** A model may carry one suffix of letters and digits in brackets. */
  lemma SuffixedModelIsSafe(base: string, inner: string)
    requires base != "" && (forall i :: 0 <= i < |base| ==> IsPlain(base[i]))
    requires inner != "" && (forall i :: 0 <= i < |inner| ==> IsSuffixLetter(inner[i]))
    ensures IsSafeModelArg(base) && IsSafeModelArg(base + "[" + inner + "]")
  {
    var model := base + "[" + inner + "]";
    FirstBracket(base, "");
    FirstBracket(base, "[" + inner + "]");
    assert base + "" == base && base + ("[" + inner + "]") == model;
    assert model[..|base|] == base && model[|base| + 1..|model| - 1] == inner;
  }

  lemma {:induction false} FirstBracket(base: string, rest: string)
    requires (forall i :: 0 <= i < |base| ==> IsPlain(base[i])) && (rest != "" ==> rest[0] == '[')
    ensures Find(base + rest, '[') == |base|
  {
    if base == "" {
      assert base + rest == rest;
    } else {
      assert IsPlain(base[0]) && (base + rest)[1..] == base[1..] + rest;
      FirstBracket(base[1..], rest);
    }
  }

  // ------------------------------------------------------ as the shell reads it

  lemma {:induction false} PlainReadsBack(v: string)
    requires forall i :: 0 <= i < |v| ==> IsPlain(v[i])
    ensures ReadWord(v, Bare) == Done(v, [])
  {
    if v != [] {
      var c, rest := v[0], v[1..];
      assert IsPlain(c);
      PlainIsBare(c);
      assert forall i :: 0 <= i < |rest| ==> rest[i] == v[i + 1];
      PlainReadsBack(rest);
      assert [c] + rest == v;
    }
  }

  lemma PlainIsBare(c: char)
    requires IsPlain(c)
    ensures !IsBlank(c) && !IsSpecial(c) && c != '\'' && c != '\"'
  {
  }

  /** A level that is spliced in reaches the agent as it was selected. */
  lemma SafeArgReadsBack(v: string)
    requires IsSafeArg(v)
    ensures ReadWord(v, Bare) == Done(v, [])
  {
    assert forall i :: 0 <= i < |v| ==> IsPlain(v[i]);
    PlainReadsBack(v);
  }

  /** Text without a single quote, in single quotes, is one word. */
  lemma {:induction false} QuotedReadsBack(v: string)
    requires '\'' !in v
    ensures ReadWord(v + "'", Single) == Done(v, [])
  {
    if v == "" {
      assert v + "'" == "'" && "'"[1..] == "";
    } else {
      assert (v + "'")[1..] == v[1..] + "'" && [v[0]] + v[1..] == v;
      QuotedReadsBack(v[1..]);
    }
  }

  lemma InQuotesReadsBack(v: string)
    requires '\'' !in v
    ensures ReadWord("'" + v + "'", Bare) == Done(v, [])
  {
    assert ("'" + v + "'")[1..] == v + "'";
    QuotedReadsBack(v);
  }

  /** Claude's one-million window adds its suffix to a model that has none. */
  function IdOf(family: Family, model: string, context: Option<string>): string {
    if family == Claude && context == Some("1m") && '[' !in model then model + "[1m]" else model
  }

  /** The model reaches the agent under that id, as one word. */
  lemma ModelReadsBack(family: Family, model: string, context: Option<string>)
    requires IsSafeModelArg(model)
    ensures ReadWord(ModelToken(family, model, context), Bare) == Done(IdOf(family, model, context), [])
  {
    var id := IdOf(family, model, context);
    IdOfModel(family, model, context);
    IdLetters(family, model, context);
    if '[' in id {
      InQuotesReadsBack(id);
    } else {
      assert forall i :: 0 <= i < |id| ==> id[i] in id;
      PlainReadsBack(id);
    }
  }

  lemma IdLetters(family: Family, model: string, context: Option<string>)
    requires IsSafeModelArg(model)
    ensures var id := IdOf(family, model, context);
            forall c :: c in id ==> c != '\'' && (IsPlain(c) || c == '[' || (c == ']' && '[' in id))
  {
    SafeModelLetters(model);
    var id := IdOf(family, model, context);
    forall c | c in id ensures c != '\'' && (IsPlain(c) || c == '[' || (c == ']' && '[' in id)) {
      var i :| 0 <= i < |id| && id[i] == c;
      if |id| > |model| {
        assert id[|model|] == '[';
        assert i < |model| ==> c == model[i];
      }
    }
  }

  lemma IdOfModel(family: Family, model: string, context: Option<string>)
    requires IsSafeModelArg(model)
    ensures var id := IdOf(family, model, context);
            ModelToken(family, model, context) == if '[' in id then "'" + id + "'" else id
  {
    SafeModelLetters(model);
    assert Find(model, '[') < |model| <==> '[' in model;
  }

  /** A model has plain letters only, or carries one suffix in brackets at its
      end. */
  lemma SafeModelLetters(model: string)
    requires IsSafeModelArg(model)
    ensures forall i :: 0 <= i < |model| ==>
              IsPlain(model[i]) || ((model[i] == '[' || model[i] == ']') && '[' in model)
    ensures '[' in model ==> model[|model| - 1] == ']'
  {
    var open := Find(model, '[');
    if open < |model| && model[|model| - 1] == ']' {
      var inner := model[open + 1..|model| - 1];
      assert model[open] == '[' && '[' in model;
      forall i | 0 <= i < |model| ensures IsPlain(model[i]) || model[i] == '[' || model[i] == ']' {
        if i < open {
          assert model[i] == model[..open][i];
        } else if open < i < |model| - 1 {
          assert model[i] == inner[i - open - 1];
        }
      }
    } else {
      forall i | 0 <= i < |model| ensures IsPlain(model[i]) {}
    }
  }

  /** A settings object is printed into the command exactly if its text has no
      whitespace and no single quote, and then reaches the agent as that text. */
  lemma RenderedReadsBack(json: Json, o: Settings)
    ensures var text := json.print_(o);
            var rendered := Render(json, o);
            && (rendered.Some? <==> forall i :: 0 <= i < |text| ==> text[i] != '\'' && !IsWhitespace(text[i]))
            && (rendered.Some? ==> ReadWord(rendered.value, Bare) == Done(text, []))
  {
    if Render(json, o).Some? {
      InQuotesReadsBack(json.print_(o));
    }
  }

  /** A value in matching quotes is read without them, any other as it is. */
  lemma UnquotedValue(text: string)
    ensures Unquote("'" + text + "'") == text && Unquote("\"" + text + "\"") == text
    ensures |text| < 2 || text[0] != text[|text| - 1] || (text[0] != '\'' && text[0] != '\"') ==> Unquote(text) == text
  {
    assert ("'" + text + "'")[1..|text| + 1] == text;
    assert ("\"" + text + "\"")[1..|text| + 1] == text;
  }
}
