/** Splicing a model selection into an agent's launch command: the passes that
    edit the token list in place, and what each leaves behind. */
module LaunchTokens {
  import opened Basics
  import opened Text

  type Token = string

  datatype Family = Claude | Codex | OpenCode | Gemini

  datatype Selection = Selection(model: Option<string>, reasoning: Option<string>, context: Option<string>)

  // -------------------------------------------------------------- selection

  function FieldValue(field: Option<string>): Option<string> {
    if field.Some? && Trim(field.value) != "" then Some(Trim(field.value)) else None
  }

  predicate IsEmpty(s: Selection) {
    FieldValue(s.model).None? && FieldValue(s.reasoning).None? && FieldValue(s.context).None?
  }

  predicate IsSafeArg(value: string) {
    value != "" && forall i :: 0 <= i < |value| ==> IsAsciiAlphanumeric(value[i]) || value[i] in "._-/:"
  }

  /** Index of the first `c`, or the length. */
  function Find(s: string, c: char): (i: nat)
    ensures i <= |s| && (i < |s| ==> s[i] == c) && forall k :: 0 <= k < i ==> s[k] != c
  {
    if s == [] || s[0] == c then 0 else 1 + Find(s[1..], c)
  }

  predicate IsSafeModelArg(value: string) {
    var open := Find(value, '[');
    if open < |value| && value[|value| - 1] == ']' then
      var inner := value[open + 1..|value| - 1];
      && IsSafeArg(value[..open]) && inner != []
      && forall i :: 0 <= i < |inner| ==> IsAsciiAlphanumeric(inner[i])
    else IsSafeArg(value)
  }

  /** The model token: Claude's 1M window rides on the id, and an id with a
      bracket is quoted for the shell. */
  function ModelToken(family: Family, model: string, context: Option<string>): Token {
    var pinned := Find(model, '[') < |model| && model[|model| - 1] == ']';
    var id := if family.Claude? && context == Some("1m") && !pinned then model + "[1m]" else model;
    if '[' in id then "'" + id + "'" else id
  }

  function Model(s: Selection): Option<string> {
    var model := FieldValue(s.model);
    if model.Some? && IsSafeModelArg(model.value) then model else None
  }

  function Reasoning(s: Selection): Option<string> {
    var reasoning := FieldValue(s.reasoning);
    if reasoning.Some? && IsSafeArg(reasoning.value) then reasoning else None
  }

  // ----------------------------------------------------------------- family

  predicate IsDash(tok: Token) {
    "-" <= tok
  }

  predicate IsAssignment(tok: Token) {
    !IsDash(tok) && '=' in tok
  }

  /** The first token that is not an environment assignment. */
  function BinaryToken(ts: seq<Token>): Option<Token> {
    if ts == [] then None else if IsAssignment(ts[0]) then BinaryToken(ts[1..]) else Some(ts[0])
  }

  function AfterLastSeparator(s: string): string {
    if s == [] then []
    else if s[|s| - 1] == '/' || s[|s| - 1] == '\\' then []
    else AfterLastSeparator(s[..|s| - 1]) + [s[|s| - 1]]
  }

  function DetectFamily(ts: seq<Token>): Option<Family> {
    var binary := BinaryToken(ts);
    if binary.None? then None
    else
      var base := AfterLastSeparator(binary.value);
      if base == "claude" then Some(Claude)
      else if base == "codex" then Some(Codex)
      else if base == "opencode" then Some(OpenCode)
      else if base == "gemini" then Some(Gemini)
      else None
  }

  // ------------------------------------------------------------ JSON values

  datatype Value = True | Other(text: string)
  type Settings = map<string, Value>

  /** The JSON library: reading an object from text and printing one compactly.
      `clean` tells whether an entry prints without whitespace and without a
      single quote. */
  datatype Json = Json(parse: string -> Option<Settings>, print_: Settings -> string, clean: (string, Value) -> bool)

  const ULTRACODE_JSON := "{\"ultracode\":true}"
  const ULTRACODE_ARG := "'" + ULTRACODE_JSON + "'"
  const MRE := "model_reasoning_effort="

  predicate Survives(text: string) {
    forall i :: 0 <= i < |text| ==> !IsWhitespace(text[i]) && text[i] != '\''
  }

  /** What serde_json promises: printing reads back, an object prints clean
      exactly when its entries do, and this one prints as written here. */
  ghost predicate Lawful(json: Json) {
    && (forall o :: json.parse(json.print_(o)) == Some(o))
    && (forall o :: Survives(json.print_(o)) <==> forall k :: k in o ==> json.clean(k, o[k]))
    && json.print_(map["ultracode" := True]) == ULTRACODE_JSON
  }

  function Unquote(value: string): string {
    if |value| >= 2 && value[0] == value[|value| - 1] && (value[0] == '\'' || value[0] == '\"')
    then value[1..|value| - 1] else value
  }

  function ParseObject(json: Json, value: string): Option<Settings> {
    json.parse(Unquote(value))
  }

  function Render(json: Json, o: Settings): Option<Token> {
    if Survives(json.print_(o)) then Some("'" + json.print_(o) + "'") else None
  }

  // ----------------------------------------------- what each pass leaves behind

  predicate IsFlag(tok: Token, long: Token, short: Option<Token>) {
    tok == long || Some(tok) == short
  }

  function Strip(ts: seq<Token>, long: Token, short: Option<Token>): seq<Token>
    decreases |ts|
  {
    if ts == [] then []
    else if IsFlag(ts[0], long, short) then Strip(if |ts| > 1 then ts[2..] else [], long, short)
    else if long + "=" <= ts[0] then Strip(ts[1..], long, short)
    else [ts[0]] + Strip(ts[1..], long, short)
  }

  predicate IsConfig(tok: Token) {
    tok == "-c" || tok == "--config"
  }

  /** Reads `rest` after `done` has been kept: an override goes, and so does
      the config flag right before it. */
  function StripCodex(done: seq<Token>, rest: seq<Token>): seq<Token>
    decreases |rest|
  {
    if rest == [] then done
    else if MRE <= rest[0] then
      StripCodex(if done != [] && IsConfig(done[|done| - 1]) then done[..|done| - 1] else done, rest[1..])
    else StripCodex(done + [rest[0]], rest[1..])
  }

  predicate OwnPairFirst(ts: seq<Token>) {
    |ts| > 1 && ts[0] == "--settings" && ts[1] == ULTRACODE_ARG
  }

  function StripUltracode(ts: seq<Token>): seq<Token>
    decreases |ts|
  {
    if ts == [] then []
    else if OwnPairFirst(ts) then StripUltracode(ts[2..])
    else [ts[0]] + StripUltracode(ts[1..])
  }

  /** Where the `--settings` value is: the token that holds it, and the text in
      front of the value inside that token. */
  datatype Slot = Slot(index: nat, prefix: string)

  function FindSlot(ts: seq<Token>): (slot: Option<Slot>)
    ensures slot.Some? ==> slot.value.index < |ts| && slot.value.prefix <= ts[slot.value.index]
    ensures slot.Some? && slot.value.prefix == "" ==> slot.value.index > 0
  {
    if ts == [] then None
    else if ts[0] == "--settings" && |ts| > 1 then Some(Slot(1, ""))
    else if "--settings=" <= ts[0] then Some(Slot(0, "--settings="))
    else
      var rest := FindSlot(ts[1..]);
      if rest.Some? then Some(Slot(rest.value.index + 1, rest.value.prefix)) else None
  }

  function SlotValue(ts: seq<Token>, slot: Slot): string
    requires slot.index < |ts| && |slot.prefix| <= |ts[slot.index]|
  {
    ts[slot.index][|slot.prefix|..]
  }

  datatype Folding = Absent | Merged | Opaque

  function FoldKind(json: Json, ts: seq<Token>): Folding {
    var slot := FindSlot(ts);
    if slot.None? then Absent
    else
      var settings := ParseObject(json, SlotValue(ts, slot.value));
      if settings.Some? && Render(json, settings.value["ultracode" := True]).Some? then Merged else Opaque
  }

  function Folded(json: Json, ts: seq<Token>): seq<Token> {
    var slot := FindSlot(ts);
    if FoldKind(json, ts).Merged? then
      var settings := ParseObject(json, SlotValue(ts, slot.value)).value["ultracode" := True];
      ts[slot.value.index := slot.value.prefix + Render(json, settings).value]
    else ts
  }

  function Cleared(json: Json, ts: seq<Token>): seq<Token> {
    var slot := FindSlot(ts);
    if slot.None? then ts
    else
      var Slot(index, prefix) := slot.value;
      var settings := ParseObject(json, SlotValue(ts, slot.value));
      if settings.None? || "ultracode" !in settings.value then ts
      else
        var left := settings.value - {"ultracode"};
        if left == map[] then
          if prefix == "" then ts[..index - 1] + ts[index + 1..] else ts[..index] + ts[index + 1..]
        else if Render(json, left).Some? then ts[index := prefix + Render(json, left).value]
        else ts
  }

  function EffortTokens(kind: Folding): seq<Token> {
    match kind
    case Absent => ["--effort", "xhigh", "--settings", ULTRACODE_ARG]
    case Merged => ["--effort", "xhigh"]
    case Opaque => ["--effort", "ultracode"]
  }

  function WithModel(family: Family, ts: seq<Token>, s: Selection): seq<Token> {
    if Model(s).None? then ts
    else Strip(ts, "--model", Some("-m")) + ["--model", ModelToken(family, Model(s).value, FieldValue(s.context))]
  }

  function WithClaudeEffort(json: Json, ts: seq<Token>, reasoning: string): seq<Token> {
    var bare := StripUltracode(Strip(ts, "--effort", None));
    if reasoning == "ultracode" then Folded(json, bare) + EffortTokens(FoldKind(json, bare))
    else Cleared(json, bare) + ["--effort", reasoning]
  }

  function WithReasoning(json: Json, family: Family, ts: seq<Token>, s: Selection): seq<Token> {
    if Reasoning(s).None? then ts
    else match family
      case Claude => WithClaudeEffort(json, ts, Reasoning(s).value)
      case Codex => StripCodex([], ts) + ["-c", MRE + Reasoning(s).value]
      case _ => ts
  }

  function Applied(json: Json, ts: seq<Token>, s: Selection): seq<Token> {
    if IsEmpty(s) || DetectFamily(ts).None? then ts
    else
      var family := DetectFamily(ts).value;
      WithReasoning(json, family, WithModel(family, ts, s), s)
  }

  /** One more token read, behind what has been kept. */
  lemma StripNext(done: seq<Token>, rest: seq<Token>, long: Token, short: Option<Token>)
    requires rest != []
    ensures done + Strip(rest, long, short) ==
              if IsFlag(rest[0], long, short) then done + Strip(if |rest| > 1 then rest[2..] else [], long, short)
              else if long + "=" <= rest[0] then done + Strip(rest[1..], long, short)
              else done + [rest[0]] + Strip(rest[1..], long, short)
  {
  }

  // ----------------------------------------------------------- in-place edits

  class TokenList {
    var items: seq<Token>

    constructor (items: seq<Token>)
      ensures this.items == items
    {
      this.items := items;
    }

    method Remove(i: nat)
      requires i < |items|
      modifies this
      ensures items == old(items)[..i] + old(items)[i + 1..]
    {
      items := items[..i] + items[i + 1..];
    }

    method StripFlag(long: Token, short: Option<Token>)
      modifies this
      ensures items == Strip(old(items), long, short)
    {
      var i := 0;
      while i < |items|
        invariant i <= |items| && items[..i] + Strip(items[i..], long, short) == Strip(old(items), long, short)
        decreases |items| - i
      {
        var tok := items[i];
        ghost var done, rest := items[..i], items[i..];
        StripNext(done, rest, long, short);
        if IsFlag(tok, long, short) {
          Remove(i);
          if i < |items| {
            Remove(i);
          }
          assert items[..i] == done && items[i..] == if |rest| > 1 then rest[2..] else [];
        } else if long + "=" <= tok {
          Remove(i);
          assert items[..i] == done && items[i..] == rest[1..];
        } else {
          i := i + 1;
          assert items[..i] == done + [tok] && items[i..] == rest[1..];
        }
      }
      assert items[..i] == items && items[i..] == [];
    }

    method StripCodexReasoning()
      modifies this
      ensures items == StripCodex([], old(items))
    {
      var i := 0;
      while i < |items|
        invariant i <= |items| && StripCodex(items[..i], items[i..]) == StripCodex([], old(items))
        decreases |items| - i
      {
        ghost var done, rest := items[..i], items[i..];
        if MRE <= items[i] {
          Remove(i);
          assert items[..i] == done && items[i..] == rest[1..];
          if i > 0 && IsConfig(items[i - 1]) {
            Remove(i - 1);
            i := i - 1;
            assert items[..i] == done[..|done| - 1] && items[i..] == rest[1..];
          }
        } else {
          i := i + 1;
          assert items[..i] == done + [rest[0]] && items[i..] == rest[1..];
        }
      }
      assert items[..i] == items && items[i..] == [];
    }

    method StripUltracodeSettings()
      modifies this
      ensures items == StripUltracode(old(items))
    {
      var i := 0;
      while i + 1 < |items|
        invariant i <= |items| && items[..i] + StripUltracode(items[i..]) == StripUltracode(old(items))
        decreases |items| - i
      {
        ghost var done, rest := items[..i], items[i..];
        if items[i] == "--settings" && items[i + 1] == ULTRACODE_ARG {
          items := items[..i] + items[i + 2..];
          assert items[..i] == done && items[i..] == rest[2..];
        } else {
          i := i + 1;
          assert items[..i] == done + [rest[0]] && items[i..] == rest[1..];
        }
      }
      assert StripUltracode(items[i..]) == items[i..] && items[..i] + items[i..] == items;
    }

    method FoldUltracode(json: Json) returns (kind: Folding)
      modifies this
      ensures kind == FoldKind(json, old(items)) && items == Folded(json, old(items))
    {
      var slot := FindSlot(items);
      if slot.None? {
        return Absent;
      }
      var settings := ParseObject(json, SlotValue(items, slot.value));
      if settings.None? {
        return Opaque;
      }
      var arg := Render(json, settings.value["ultracode" := True]);
      if arg.None? {
        return Opaque;
      }
      items := items[slot.value.index := slot.value.prefix + arg.value];
      return Merged;
    }

    method ClearUltracode(json: Json)
      modifies this
      ensures items == Cleared(json, old(items))
    {
      var slot := FindSlot(items);
      if slot.None? {
        return;
      }
      var Slot(index, prefix) := slot.value;
      var settings := ParseObject(json, SlotValue(items, slot.value));
      if settings.None? || "ultracode" !in settings.value {
        return;
      }
      var left := settings.value - {"ultracode"};
      if left == map[] {
        if prefix == "" {
          items := items[..index - 1] + items[index + 1..];
        } else {
          Remove(index);
        }
        return;
      }
      var arg := Render(json, left);
      if arg.Some? {
        items := items[index := prefix + arg.value];
      }
    }

    method ApplyModelSelection(json: Json, selection: Selection)
      modifies this
      ensures items == Applied(json, old(items), selection)
    {
      if IsEmpty(selection) {
        return;
      }
      var detected := DetectFamily(items);
      if detected.None? {
        return;
      }
      var family := detected.value;
      var model := FieldValue(selection.model);
      if model.Some? && IsSafeModelArg(model.value) {
        StripFlag("--model", Some("-m"));
        items := items + ["--model", ModelToken(family, model.value, FieldValue(selection.context))];
      }
      var reasoning := FieldValue(selection.reasoning);
      if reasoning.None? || !IsSafeArg(reasoning.value) {
        return;
      }
      match family
      case Claude =>
        StripFlag("--effort", None);
        StripUltracodeSettings();
        if reasoning.value == "ultracode" {
          var kind := FoldUltracode(json);
          items := items + EffortTokens(kind);
        } else {
          ClearUltracode(json);
          items := items + ["--effort", reasoning.value];
        }
      case Codex =>
        StripCodexReasoning();
        items := items + ["-c", MRE + reasoning.value];
      case _ =>
    }
  }
}
