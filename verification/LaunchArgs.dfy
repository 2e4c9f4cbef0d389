/** The token list read as arguments: a flag with its value, or a token of its
    own. On well-formed commands every pass is a plain operation on arguments,
    which is what the passes are for. */
module LaunchArgs {
  import opened Basics
  import opened LaunchTokens

  datatype Arg = Valued(flag: Token, value: Token) | Single(tok: Token)

  /** The flags with a value that the family's passes look for. */
  predicate TakesValue(f: Family, tok: Token) {
    || tok == "--model" || tok == "-m"
    || (f.Claude? && (tok == "--effort" || tok == "--settings"))
    || (f.Codex? && IsConfig(tok))
  }

  function Parse(f: Family, ts: seq<Token>): seq<Arg>
    decreases |ts|
  {
    if ts == [] then []
    else if TakesValue(f, ts[0]) && |ts| > 1 then [Valued(ts[0], ts[1])] + Parse(f, ts[2..])
    else [Single(ts[0])] + Parse(f, ts[1..])
  }

  function Tokens(a: Arg): seq<Token> {
    if a.Valued? then [a.flag, a.value] else [a.tok]
  }

  function Flatten(args: seq<Arg>): seq<Token> {
    if args == [] then [] else Tokens(args[0]) + Flatten(args[1..])
  }

  /** A known flag has a value. Where several passes read the command the value
      is no flag itself, and for Codex only a config flag has a reasoning
      override for its value. */
  predicate Good(f: Family, a: Arg) {
    if a.Valued? then
      && TakesValue(f, a.flag)
      && (f.Claude? || f.Codex? ==> !IsDash(a.value))
      && (f.Codex? && MRE <= a.value ==> IsConfig(a.flag))
    else !TakesValue(f, a.tok)
  }

  ghost predicate AllGood(f: Family, args: seq<Arg>) {
    forall i :: 0 <= i < |args| ==> Good(f, args[i])
  }

  function Keep(args: seq<Arg>, p: Arg -> bool): seq<Arg> {
    if args == [] then []
    else if p(args[0]) then [args[0]] + Keep(args[1..], p)
    else Keep(args[1..], p)
  }

  // ------------------------------------------------------- parsing round trip

  lemma FlattenCons(a: Arg, rest: seq<Arg>)
    ensures Flatten([a] + rest) == Tokens(a) + Flatten(rest)
  {
    assert ([a] + rest)[1..] == rest;
  }

  lemma {:induction false} FlattenParse(f: Family, ts: seq<Token>)
    ensures Flatten(Parse(f, ts)) == ts
    decreases |ts|
  {
    if ts != [] {
      var two := TakesValue(f, ts[0]) && |ts| > 1;
      var a := if two then Valued(ts[0], ts[1]) else Single(ts[0]);
      var rest := if two then ts[2..] else ts[1..];
      FlattenParse(f, rest);
      FlattenCons(a, Parse(f, rest));
      assert Parse(f, ts) == [a] + Parse(f, rest);
      assert ts == Tokens(a) + rest;
    }
  }

  lemma {:induction false} ParseFlatten(f: Family, args: seq<Arg>)
    requires AllGood(f, args)
    ensures Parse(f, Flatten(args)) == args
  {
    if args != [] {
      var ts := Flatten(args);
      ParseFlatten(f, args[1..]);
      assert Good(f, args[0]);
      if args[0].Valued? {
        assert ts[2..] == Flatten(args[1..]);
      } else {
        assert ts[1..] == Flatten(args[1..]);
      }
    }
  }

  lemma {:induction false} FlattenConcat(a: seq<Arg>, b: seq<Arg>)
    ensures Flatten(a + b) == Flatten(a) + Flatten(b)
  {
    if a == [] {
      assert a + b == b;
    } else {
      FlattenConcat(a[1..], b);
      assert a + b == [a[0]] + (a[1..] + b) && a == [a[0]] + a[1..];
      FlattenCons(a[0], a[1..] + b);
      FlattenCons(a[0], a[1..]);
      Associate(Tokens(a[0]), Flatten(a[1..]), Flatten(b));
    }
  }

  lemma {:induction false} KeepConcat(a: seq<Arg>, b: seq<Arg>, p: Arg -> bool)
    ensures Keep(a + b, p) == Keep(a, p) + Keep(b, p)
  {
    if a == [] {
      assert a + b == b;
    } else {
      KeepConcat(a[1..], b, p);
      assert (a + b)[1..] == a[1..] + b;
    }
  }

  lemma {:induction false} KeepGood(f: Family, args: seq<Arg>, p: Arg -> bool)
    requires AllGood(f, args)
    ensures AllGood(f, Keep(args, p)) && forall i :: 0 <= i < |Keep(args, p)| ==> p(Keep(args, p)[i])
    ensures forall i :: 0 <= i < |Keep(args, p)| ==> Keep(args, p)[i] in args
  {
    if args != [] {
      assert Good(f, args[0]);
      KeepGood(f, args[1..], p);
    }
  }

  lemma {:induction false} KeepAll(args: seq<Arg>, p: Arg -> bool)
    requires forall i :: 0 <= i < |args| ==> p(args[i])
    ensures Keep(args, p) == args
  {
    if args != [] {
      assert p(args[0]);
      assert forall i :: 0 <= i < |args[1..]| ==> args[1..][i] == args[i + 1];
      KeepAll(args[1..], p);
    }
  }

  /** Dropping what `p` drops does not change what `q` keeps, if `q` drops it
      anyway. */
  lemma {:induction false} KeepCoarser(args: seq<Arg>, p: Arg -> bool, q: Arg -> bool)
    requires forall i :: 0 <= i < |args| && q(args[i]) ==> p(args[i])
    ensures Keep(Keep(args, p), q) == Keep(args, q)
  {
    if args != [] {
      assert forall i :: 0 <= i < |args[1..]| ==> args[1..][i] == args[i + 1];
      KeepCoarser(args[1..], p, q);
      if p(args[0]) {
        assert Keep(args, p)[1..] == Keep(args[1..], p);
      }
    }
  }

  // ------------------------------------------------------ passes on arguments

  /** Not an argument of the flag `long`, its short form or its `=` form. */
  predicate NotFlag(a: Arg, long: Token, short: Option<Token>) {
    if a.Valued? then !IsFlag(a.flag, long, short)
    else !(long + "=" <= a.tok)
  }

  predicate NotModel(a: Arg) { NotFlag(a, "--model", Some("-m")) }
  predicate NotEffort(a: Arg) { NotFlag(a, "--effort", None) }
  predicate NotOwnPair(a: Arg) { a != Valued("--settings", ULTRACODE_ARG) }

  predicate NotOverride(a: Arg) {
    if a.Valued? then !(MRE <= a.value) else !(MRE <= a.tok)
  }

  lemma DashTokens(f: Family, tok: Token)
    requires !IsDash(tok)
    ensures !TakesValue(f, tok) && !("--model=" <= tok) && !("--effort=" <= tok) && !("--settings=" <= tok)
  {
  }

  lemma FlagTokens(f: Family, tok: Token)
    requires TakesValue(f, tok)
    ensures IsDash(tok) && !("--model=" <= tok) && !("--effort=" <= tok) && !("--settings=" <= tok) && !(MRE <= tok)
  {
    assert "--model="[2] == 'm' && "--effort="[2] == 'e' && "--settings="[2] == 's' && MRE[0] == 'm';
    if |tok| == 2 {
    } else if tok == "--model" {
      assert tok[2] == 'm';
    } else if tok == "--effort" {
      assert tok[2] == 'e';
    } else if tok == "--settings" {
      assert tok[2] == 's' && |tok| < |"--settings="|;
    } else {
      assert tok == "--config" && tok[2] == 'c';
    }
  }

  /** The two flags that are stripped with their values, the second one for
      Claude only. */
  predicate Strippable(f: Family, long: Token, short: Option<Token>) {
    (long == "--model" && short == Some("-m")) || (f.Claude? && long == "--effort" && short.None?)
  }

  lemma StripArg(f: Family, a: Arg, rest: seq<Token>, long: Token, short: Option<Token>)
    requires Good(f, a) && Strippable(f, long, short)
    ensures Strip(Tokens(a) + rest, long, short) ==
              (if NotFlag(a, long, short) then Tokens(a) else []) + Strip(rest, long, short)
  {
    var ts := Tokens(a) + rest;
    match a
    case Valued(flag, value) =>
      FlagTokens(f, flag);
      assert ts[1..] == [value] + rest && ts[2..] == rest && ts[1..][1..] == rest;
      if NotFlag(a, long, short) {
        DashTokens(f, value);
        assert Strip(ts[1..], long, short) == [value] + Strip(rest, long, short);
      }
    case Single(tok) =>
      assert ts[1..] == rest;
  }

  lemma {:induction false} StripIsKeep(f: Family, args: seq<Arg>, long: Token, short: Option<Token>)
    requires AllGood(f, args) && Strippable(f, long, short)
    ensures Strip(Flatten(args), long, short) == Flatten(Keep(args, a => NotFlag(a, long, short)))
  {
    if args != [] {
      var p := a => NotFlag(a, long, short);
      assert Good(f, args[0]);
      StripArg(f, args[0], Flatten(args[1..]), long, short);
      StripIsKeep(f, args[1..], long, short);
      if p(args[0]) {
        assert Keep(args, p)[1..] == Keep(args[1..], p);
      }
    }
  }

  lemma StripUltracodeArg(a: Arg, rest: seq<Token>)
    requires Good(Claude, a)
    ensures StripUltracode(Tokens(a) + rest) == (if NotOwnPair(a) then Tokens(a) else []) + StripUltracode(rest)
  {
    var ts := Tokens(a) + rest;
    match a
    case Valued(flag, value) =>
      DashTokens(Claude, value);
      assert ts[1..] == [value] + rest && ts[2..] == rest && ts[1..][1..] == rest;
      if NotOwnPair(a) {
        assert !OwnPairFirst(ts) && !OwnPairFirst(ts[1..]);
      }
    case Single(tok) =>
      assert ts[1..] == rest && !OwnPairFirst(ts);
  }

  lemma {:induction false} StripUltracodeIsKeep(args: seq<Arg>)
    requires AllGood(Claude, args)
    ensures StripUltracode(Flatten(args)) == Flatten(Keep(args, NotOwnPair))
  {
    if args != [] {
      assert Good(Claude, args[0]);
      StripUltracodeArg(args[0], Flatten(args[1..]));
      StripUltracodeIsKeep(args[1..]);
      if NotOwnPair(args[0]) {
        assert Keep(args, NotOwnPair)[1..] == Keep(args[1..], NotOwnPair);
      }
    }
  }

  ghost predicate NoConfigLast(done: seq<Token>) {
    done != [] ==> !IsConfig(done[|done| - 1])
  }

  lemma StripCodexArg(done: seq<Token>, a: Arg, rest: seq<Token>)
    requires Good(Codex, a) && NoConfigLast(done)
    ensures var more := if NotOverride(a) then done + Tokens(a) else done;
            StripCodex(done, Tokens(a) + rest) == StripCodex(more, rest) && NoConfigLast(more)
  {
    var ts := Tokens(a) + rest;
    match a
    case Valued(flag, value) =>
      FlagTokens(Codex, flag);
      DashTokens(Codex, value);
      assert ts[1..] == [value] + rest && ts[1..][1..] == rest;
      assert StripCodex(done, ts) == StripCodex(done + [flag], ts[1..]);
      assert done + [flag] + [value] == done + [flag, value];
      assert (done + [flag])[..|done|] == done;
    case Single(tok) =>
      assert ts[1..] == rest;
  }

  lemma Associate(a: seq<Token>, b: seq<Token>, c: seq<Token>)
    ensures a + b + c == a + (b + c)
  {
  }

  lemma {:induction false} StripCodexIsKeep(done: seq<Token>, args: seq<Arg>)
    requires AllGood(Codex, args) && NoConfigLast(done)
    ensures StripCodex(done, Flatten(args)) == done + Flatten(Keep(args, NotOverride))
    decreases |args|
  {
    if args == [] {
      assert done + [] == done;
    } else {
      assert Good(Codex, args[0]);
      StripCodexArg(done, args[0], Flatten(args[1..]));
      if NotOverride(args[0]) {
        StripCodexIsKeep(done + Tokens(args[0]), args[1..]);
        assert Keep(args, NotOverride)[1..] == Keep(args[1..], NotOverride);
        Associate(done, Tokens(args[0]), Flatten(Keep(args[1..], NotOverride)));
      } else {
        StripCodexIsKeep(done, args[1..]);
      }
    }
  }

  // -------------------------------------------------------------- settings

  predicate IsSettings(a: Arg) {
    if a.Valued? then a.flag == "--settings" else "--settings=" <= a.tok
  }

  predicate NotSettings(a: Arg) { !IsSettings(a) }

  function SettingsValue(a: Arg): string
    requires IsSettings(a)
  {
    if a.Valued? then a.value else a.tok[|"--settings="|..]
  }

  function WithValue(a: Arg, value: string): Arg
    requires IsSettings(a)
  {
    if a.Valued? then Valued("--settings", value) else Single("--settings=" + value)
  }

  /** The first settings argument, or the length. */
  function First(args: seq<Arg>): (i: nat)
    ensures i <= |args| && (i < |args| ==> IsSettings(args[i])) && forall k :: 0 <= k < i ==> !IsSettings(args[k])
  {
    if args == [] || IsSettings(args[0]) then 0 else 1 + First(args[1..])
  }

  function SlotAt(args: seq<Arg>, i: nat): Slot
    requires i < |args|
  {
    var before := |Flatten(args[..i])|;
    if args[i].Valued? then Slot(before + 1, "") else Slot(before, "--settings=")
  }

  function Shift(slot: Option<Slot>, n: nat): Option<Slot> {
    if slot.Some? then Some(Slot(slot.value.index + n, slot.value.prefix)) else None
  }

  predicate NoSlot(tok: Token) {
    tok != "--settings" && !("--settings=" <= tok)
  }

  lemma {:induction false} FindSlotPast(before: seq<Token>, rest: seq<Token>)
    requires forall k :: 0 <= k < |before| ==> NoSlot(before[k])
    ensures FindSlot(before + rest) == Shift(FindSlot(rest), |before|)
  {
    if before == [] {
      assert before + rest == rest;
    } else {
      assert NoSlot(before[0]) && (before + rest)[1..] == before[1..] + rest;
      FindSlotPast(before[1..], rest);
    }
  }

  lemma FindSlotHere(a: Arg, rest: seq<Token>)
    requires IsSettings(a) && Good(Claude, a)
    ensures FindSlot(Tokens(a) + rest) == if a.Valued? then Some(Slot(1, "")) else Some(Slot(0, "--settings="))
  {
    var ts := Tokens(a) + rest;
    assert ts[0] == if a.Valued? then "--settings" else a.tok;
  }

  lemma FindSlotLater(a: Arg, rest: seq<Token>)
    requires !IsSettings(a) && Good(Claude, a)
    ensures FindSlot(Tokens(a) + rest) == Shift(FindSlot(rest), |Tokens(a)|)
  {
    if a.Valued? {
      FlagTokens(Claude, a.flag);
      DashTokens(Claude, a.value);
      assert NoSlot(a.flag) && NoSlot(a.value);
    } else {
      assert NoSlot(a.tok);
    }
    FindSlotPast(Tokens(a), rest);
  }

  lemma SlotShifts(args: seq<Arg>, i: nat)
    requires 0 < i < |args|
    ensures Some(SlotAt(args, i)) == Shift(Some(SlotAt(args[1..], i - 1)), |Tokens(args[0])|)
  {
    assert args[..i][1..] == args[1..][..i - 1];
    assert Flatten(args[..i]) == Tokens(args[0]) + Flatten(args[1..][..i - 1]);
    assert args[1..][i - 1] == args[i];
  }

  lemma {:induction false} SlotIsFirst(args: seq<Arg>)
    requires AllGood(Claude, args)
    ensures var i := First(args);
            FindSlot(Flatten(args)) == if i < |args| then Some(SlotAt(args, i)) else None
  {
    if args != [] {
      assert Good(Claude, args[0]);
      if IsSettings(args[0]) {
        FindSlotHere(args[0], Flatten(args[1..]));
      } else {
        FindSlotLater(args[0], Flatten(args[1..]));
      }
      SlotIsFirst(args[1..]);
      var i := First(args);
      if 0 < i < |args| {
        SlotShifts(args, i);
      }
    }
  }

  /** The tokens around argument `i`. */
  lemma FlattenAround(args: seq<Arg>, i: nat)
    requires i < |args|
    ensures Flatten(args) == Flatten(args[..i]) + Tokens(args[i]) + Flatten(args[i + 1..])
  {
    SplitAround(args, i);
    FlattenParts(args, args[..i], args[i], args[i + 1..]);
  }

  lemma SplitAround<T>(s: seq<T>, i: nat)
    requires i < |s|
    ensures s == s[..i] + ([s[i]] + s[i + 1..])
  {
  }

  lemma FlattenParts(args: seq<Arg>, before: seq<Arg>, a: Arg, after: seq<Arg>)
    requires args == before + ([a] + after)
    ensures Flatten(args) == Flatten(before) + Tokens(a) + Flatten(after)
  {
    FlattenCons(a, after);
    FlattenConcat(before, [a] + after);
    Associate(Flatten(before), Tokens(a), Flatten(after));
  }

  function ObjectOf(json: Json, a: Arg): Option<Settings>
    requires IsSettings(a)
  {
    ParseObject(json, SettingsValue(a))
  }

  function FoldArg(json: Json, a: Arg): Option<Arg>
    requires IsSettings(a)
  {
    var o := ObjectOf(json, a);
    if o.Some? && Render(json, o.value["ultracode" := True]).Some?
    then Some(WithValue(a, Render(json, o.value["ultracode" := True]).value))
    else None
  }

  function FoldArgs(json: Json, args: seq<Arg>): seq<Arg> {
    var i := First(args);
    if i < |args| && FoldArg(json, args[i]).Some? then args[i := FoldArg(json, args[i]).value] else args
  }

  function FoldArgsKind(json: Json, args: seq<Arg>): Folding {
    var i := First(args);
    if i == |args| then Absent else if FoldArg(json, args[i]).Some? then Merged else Opaque
  }

  lemma SlotValueIs(args: seq<Arg>, i: nat)
    requires AllGood(Claude, args) && i == First(args) < |args|
    ensures FindSlot(Flatten(args)) == Some(SlotAt(args, i))
    ensures SlotAt(args, i).index < |Flatten(args)| && SlotAt(args, i).prefix <= Flatten(args)[SlotAt(args, i).index]
    ensures SlotValue(Flatten(args), SlotAt(args, i)) == SettingsValue(args[i])
  {
    SlotIsFirst(args);
    FlattenAround(args, i);
  }

  lemma UpdateMiddle(p: seq<Token>, m: seq<Token>, q: seq<Token>, k: nat, tok: Token)
    requires k < |m|
    ensures (p + m + q)[|p| + k := tok] == p + m[k := tok] + q
  {
  }

  lemma TokensWithValue(a: Arg, value: string)
    requires IsSettings(a)
    ensures var k := if a.Valued? then 1 else 0;
            Tokens(WithValue(a, value)) == Tokens(a)[k := (if a.Valued? then "" else "--settings=") + value]
  {
    assert "" + value == value;
  }

  lemma FlattenUpdate(args: seq<Arg>, i: nat, value: string)
    requires AllGood(Claude, args) && i == First(args) < |args|
    ensures SlotAt(args, i).index < |Flatten(args)|
    ensures Flatten(args[i := WithValue(args[i], value)]) ==
              Flatten(args)[SlotAt(args, i).index := SlotAt(args, i).prefix + value]
  {
    var a := args[i];
    var changed := args[i := WithValue(a, value)];
    var p, q := Flatten(args[..i]), Flatten(args[i + 1..]);
    assert Flatten(args) == p + Tokens(a) + q by { FlattenAround(args, i); }
    assert Flatten(changed) == p + Tokens(WithValue(a, value)) + q by {
      FlattenAround(changed, i);
      assert changed[..i] == args[..i] && changed[i + 1..] == args[i + 1..];
    }
    TokensWithValue(a, value);
    UpdateMiddle(p, Tokens(a), q, if a.Valued? then 1 else 0, SlotAt(args, i).prefix + value);
  }

  lemma FoldedIsFoldArgs(json: Json, args: seq<Arg>)
    requires AllGood(Claude, args)
    ensures Folded(json, Flatten(args)) == Flatten(FoldArgs(json, args)) &&
              FoldKind(json, Flatten(args)) == FoldArgsKind(json, args)
  {
    SlotIsFirst(args);
    var i := First(args);
    if i < |args| {
      SlotValueIs(args, i);
      var o := ObjectOf(json, args[i]);
      if o.Some? && Render(json, o.value["ultracode" := True]).Some? {
        FlattenUpdate(args, i, Render(json, o.value["ultracode" := True]).value);
      }
    }
  }

  /** The settings argument after the level was taken out: gone when nothing
      else was in it, untouched when it cannot be rewritten. */
  function ClearArg(json: Json, a: Arg): seq<Arg>
    requires IsSettings(a)
  {
    var o := ObjectOf(json, a);
    if o.None? || "ultracode" !in o.value then [a]
    else
      var left := o.value - {"ultracode"};
      if left == map[] then []
      else if Render(json, left).Some? then [WithValue(a, Render(json, left).value)]
      else [a]
  }

  function ClearArgs(json: Json, args: seq<Arg>): seq<Arg> {
    var i := First(args);
    if i < |args| then args[..i] + ClearArg(json, args[i]) + args[i + 1..] else args
  }

  /** `args` with argument `i` replaced by `middle`. */
  function Spliced(args: seq<Arg>, i: nat, middle: seq<Arg>): seq<Arg>
    requires i < |args|
  {
    args[..i] + middle + args[i + 1..]
  }

  lemma SplicedIs(args: seq<Arg>, i: nat, a: Arg)
    requires i < |args|
    ensures Spliced(args, i, [a]) == args[i := a] && Spliced(args, i, [args[i]]) == args
    ensures Flatten(Spliced(args, i, [])) == Flatten(args[..i]) + Flatten(args[i + 1..])
  {
    FlattenConcat(args[..i], args[i + 1..]);
    assert args[..i] + [] + args[i + 1..] == args[..i] + args[i + 1..];
  }

  lemma DropMiddle(p: seq<Token>, m: seq<Token>, q: seq<Token>)
    ensures (p + m + q)[..|p|] + (p + m + q)[|p| + |m|..] == p + q
  {
  }

  lemma DroppedSlot(args: seq<Arg>, i: nat)
    requires i < |args|
    ensures var ts := Flatten(args);
            var Slot(index, prefix) := SlotAt(args, i);
            && index < |ts| && (prefix == "" ==> index > 0)
            && Flatten(Spliced(args, i, [])) ==
                 (if prefix == "" then ts[..index - 1] else ts[..index]) + ts[index + 1..]
  {
    var p, m, q := Flatten(args[..i]), Tokens(args[i]), Flatten(args[i + 1..]);
    SplicedIs(args, i, args[i]);
    FlattenAround(args, i);
    DropMiddle(p, m, q);
    var Slot(index, prefix) := SlotAt(args, i);
    assert (if prefix == "" then index - 1 else index) == |p| && index + 1 == |p| + |m|;
  }

  lemma RewrittenSlot(args: seq<Arg>, i: nat, value: string)
    requires AllGood(Claude, args) && i == First(args) < |args|
    ensures SlotAt(args, i).index < |Flatten(args)|
    ensures Flatten(Spliced(args, i, [WithValue(args[i], value)])) ==
              Flatten(args)[SlotAt(args, i).index := SlotAt(args, i).prefix + value]
  {
    FlattenUpdate(args, i, value);
    SplicedIs(args, i, WithValue(args[i], value));
  }

  lemma ValueOfWithValue(a: Arg, value: string)
    requires IsSettings(a)
    ensures IsSettings(WithValue(a, value)) && SettingsValue(WithValue(a, value)) == value
    ensures a == WithValue(a, SettingsValue(a))
  {
    if a.Single? {
      var tok := "--settings=" + value;
      assert tok[..|"--settings="|] == "--settings=" && tok[|"--settings="|..] == value;
      assert a.tok == "--settings=" + a.tok[|"--settings="|..];
    }
  }

  /** Clearing drops the settings argument or gives it another value. */
  lemma ClearArgValue(json: Json, a: Arg)
    requires IsSettings(a)
    ensures var c := ClearArg(json, a);
            c == [] || (|c| == 1 && IsSettings(c[0]) && c[0] == WithValue(a, SettingsValue(c[0])))
  {
    ValueOfWithValue(a, SettingsValue(a));
    var o := ObjectOf(json, a);
    if o.Some? && Render(json, o.value - {"ultracode"}).Some? {
      ValueOfWithValue(a, Render(json, o.value - {"ultracode"}).value);
    }
  }

  /** The same, seen at the slot of its value. */
  lemma ClearedAtSlot(json: Json, ts: seq<Token>, slot: Slot, a: Arg)
    requires FindSlot(ts) == Some(slot) && IsSettings(a) && SettingsValue(a) == SlotValue(ts, slot)
    ensures var c := ClearArg(json, a);
            if c == [] then
              Cleared(json, ts) ==
                (if slot.prefix == "" then ts[..slot.index - 1] else ts[..slot.index]) + ts[slot.index + 1..]
            else
              IsSettings(c[0]) && Cleared(json, ts) == ts[slot.index := slot.prefix + SettingsValue(c[0])]
  {
    ClearArgValue(json, a);
    assert ts[slot.index] == slot.prefix + SlotValue(ts, slot);
    var o := ObjectOf(json, a);
    if o.Some? && Render(json, o.value - {"ultracode"}).Some? {
      ValueOfWithValue(a, Render(json, o.value - {"ultracode"}).value);
    }
  }

  lemma ClearedIsClearArgs(json: Json, args: seq<Arg>)
    requires AllGood(Claude, args)
    ensures Cleared(json, Flatten(args)) == Flatten(ClearArgs(json, args))
  {
    SlotIsFirst(args);
    var i := First(args);
    if i < |args| {
      SlotValueIs(args, i);
      ClearedAtSlot(json, Flatten(args), SlotAt(args, i), args[i]);
      ClearArgValue(json, args[i]);
      var c := ClearArg(json, args[i]);
      assert ClearArgs(json, args) == Spliced(args, i, c);
      if c == [] {
        DroppedSlot(args, i);
      } else {
        assert c == [c[0]];
        RewrittenSlot(args, i, SettingsValue(c[0]));
      }
    }
  }
}
