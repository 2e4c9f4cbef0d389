/** Which program a command starts, told by its tokens, and which family of
    agents that is. */
module LaunchFamilies {
  import opened Basics
  import opened LaunchTokens

  /** An environment assignment in front of the program. */
  predicate Assigns(tok: Token) {
    '=' in tok && tok[0] != '-'
  }

  predicate IsSeparator(c: char) {
    c == '/' || c == '\\'
  }

  /** The directory in front of a program's name, with its separator. */
  predicate IsDirectory(dir: string) {
    dir == "" || IsSeparator(dir[|dir| - 1])
  }

  predicate IsName(name: string) {
    forall i :: 0 <= i < |name| ==> !IsSeparator(name[i])
  }

  /** The command starts the program `name`, given with the directory `dir`,
      behind nothing but environment assignments. */
  ghost predicate StartsAt(ts: seq<Token>, k: int, dir: string, name: string) {
    && 0 <= k < |ts| && (forall j :: 0 <= j < k ==> Assigns(ts[j]))
    && !Assigns(ts[k]) && ts[k] == dir + name && IsDirectory(dir) && IsName(name)
  }

  ghost predicate Starts(ts: seq<Token>, name: string) {
    exists k, dir :: StartsAt(ts, k, dir, name)
  }

  lemma {:induction false} BaseIsTheName(dir: string, name: string)
    requires IsDirectory(dir) && IsName(name)
    ensures AfterLastSeparator(dir + name) == name
    decreases |name|
  {
    if name == "" {
      assert dir + name == dir;
    } else {
      var last := |name| - 1;
      assert (dir + name)[..|dir + name| - 1] == dir + name[..last];
      BaseIsTheName(dir, name[..last]);
    }
  }

  lemma {:induction false} NameHasADirectory(tok: string) returns (dir: string)
    ensures tok == dir + AfterLastSeparator(tok) && IsDirectory(dir) && IsName(AfterLastSeparator(tok))
    decreases |tok|
  {
    if tok == "" || IsSeparator(tok[|tok| - 1]) {
      dir := tok;
      assert dir + "" == tok;
    } else {
      dir := NameHasADirectory(tok[..|tok| - 1]);
    }
  }

  lemma {:induction false} FirstThatAssignsNothing(ts: seq<Token>, k: nat)
    requires k <= |ts| && (forall j :: 0 <= j < k ==> Assigns(ts[j])) && (k < |ts| ==> !Assigns(ts[k]))
    ensures BinaryToken(ts) == if k < |ts| then Some(ts[k]) else None
  {
    if k > 0 {
      assert forall j :: 0 <= j < k - 1 ==> ts[1..][j] == ts[j + 1];
      assert Assigns(ts[0]);
      FirstThatAssignsNothing(ts[1..], k - 1);
    } else if ts != [] {
      assert !Assigns(ts[0]);
    }
  }

  /** Behind any environment assignments, and in any directory, the four known
      names are the four families, and every other name is none. */
  lemma FamilyByName(ts: seq<Token>, k: nat, dir: string, name: string)
    requires StartsAt(ts, k, dir, name)
    ensures DetectFamily(ts) ==
              if name == "claude" then Some(Claude)
              else if name == "codex" then Some(Codex)
              else if name == "opencode" then Some(OpenCode)
              else if name == "gemini" then Some(Gemini)
              else None
  {
    FirstThatAssignsNothing(ts, k);
    BaseIsTheName(dir, name);
  }

  /** `AgentFamily::as_str`. */
  function FamilyName(family: Family): string {
    match family
    case Claude => "claude"
    case Codex => "codex"
    case OpenCode => "opencode"
    case Gemini => "gemini"
  }

  /** A command is of a family exactly if it starts that family's program. */
  lemma FamilyExactly(ts: seq<Token>, family: Family)
    ensures DetectFamily(ts) == Some(family) <==> Starts(ts, FamilyName(family))
  {
    if k, dir :| StartsAt(ts, k, dir, FamilyName(family)) {
      FamilyByName(ts, k, dir, FamilyName(family));
    }
    if DetectFamily(ts) == Some(family) {
      var k := ProgramAt(ts);
      FirstThatAssignsNothing(ts, k);
      var dir := NameHasADirectory(ts[k]);
      assert StartsAt(ts, k, dir, AfterLastSeparator(ts[k]));
      FamilyByName(ts, k, dir, AfterLastSeparator(ts[k]));
    }
  }

  lemma {:induction false} ProgramAt(ts: seq<Token>) returns (k: nat)
    ensures k <= |ts| && (forall j :: 0 <= j < k ==> Assigns(ts[j])) && (k < |ts| ==> !Assigns(ts[k]))
  {
    if ts == [] || !Assigns(ts[0]) {
      k := 0;
    } else {
      var rest := ProgramAt(ts[1..]);
      k := rest + 1;
      assert forall j :: 0 < j < |ts| ==> ts[j] == ts[1..][j - 1];
    }
  }
}
