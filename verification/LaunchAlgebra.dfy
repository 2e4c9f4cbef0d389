/** How the splice's filters and rewrites act on concatenations, on the one
    settings argument, and on the program name. */
module LaunchAlgebra {
  import opened Basics
  import opened LaunchTokens
  import opened LaunchArgs
  import opened LaunchCommand

  // ----------------------------------------------------------- the binary

  lemma {:induction false} BinaryOfConcat(a: seq<Token>, b: seq<Token>)
    ensures BinaryToken(a + b) == if BinaryToken(a).Some? then BinaryToken(a) else BinaryToken(b)
  {
    if a == [] {
      assert a + b == b;
    } else {
      assert (a + b)[1..] == a[1..] + b;
      BinaryOfConcat(a[1..], b);
    }
  }

  lemma DashIsNoBinary(d: Token, rest: seq<Token>)
    requires IsDash(d)
    ensures BinaryToken([d] + rest) == Some(d)
  {
  }

  lemma BinaryInPrefix(p: seq<Token>, m: seq<Token>, q: seq<Token>)
    requires m != [] && IsDash(m[0])
    requires BinaryToken(p + m + q).Some? && !IsDash(BinaryToken(p + m + q).value)
    ensures BinaryToken(p) == BinaryToken(p + m + q)
  {
    assert p + m + q == p + ([m[0]] + (m[1..] + q));
    BinaryOfConcat(p, [m[0]] + (m[1..] + q));
    DashIsNoBinary(m[0], m[1..] + q);
  }

  /** The program name comes before the argument, which is a flag. */
  lemma {:induction false} BinaryBefore(args: seq<Arg>, i: nat)
    requires i < |args| && IsDash(Tokens(args[i])[0])
    requires BinaryToken(Flatten(args)).Some? && !IsDash(BinaryToken(Flatten(args)).value)
    ensures BinaryToken(Flatten(args[..i])) == BinaryToken(Flatten(args))
  {
    var p, m, q := Flatten(args[..i]), Tokens(args[i]), Flatten(args[i + 1..]);
    assert Flatten(args) == p + m + q by { FlattenAround(args, i); }
    BinaryInPrefix(p, m, q);
  }

  /** Filters that keep every bare word keep the program name. */
  lemma {:induction false} BinaryOfKeep(f: Family, args: seq<Arg>, p: Arg -> bool)
    requires AllGood(f, args)
    requires forall t :: !IsDash(t) && !IsAssignment(t) ==> p(Single(t))
    requires BinaryToken(Flatten(args)).Some? && !IsDash(BinaryToken(Flatten(args)).value)
    ensures BinaryToken(Flatten(Keep(args, p))) == BinaryToken(Flatten(args))
  {
    if args != [] {
      assert Good(f, args[0]);
      if args[0].Valued? {
        FlagTokens(f, args[0].flag);
        assert false;
      } else {
        assert Flatten(args)[1..] == Flatten(args[1..]);
        if IsAssignment(args[0].tok) {
          BinaryOfKeep(f, args[1..], p);
          if p(args[0]) {
            assert Keep(args, p)[1..] == Keep(args[1..], p);
          }
        }
      }
    }
  }

  lemma WordIsNoOverride(t: Token)
    requires !('=' in t)
    ensures !(MRE <= t)
  {
    assert MRE[|MRE| - 1] == '=';
  }

  lemma SettingsIsDash(a: Arg)
    requires IsSettings(a) && Good(Claude, a)
    ensures IsDash(Tokens(a)[0])
  {
  }

  ghost predicate SameBinary(a: seq<Arg>, b: seq<Arg>) {
    BinaryToken(Flatten(a)) == BinaryToken(Flatten(b))
  }

  /** The command starts a program. */
  ghost predicate HasBinary(args: seq<Arg>) {
    BinaryToken(Flatten(args)).Some? && !IsDash(BinaryToken(Flatten(args)).value)
  }

  lemma BinaryOfPrefix(args: seq<Arg>, more: seq<Arg>)
    requires HasBinary(args)
    ensures SameBinary(args + more, args)
  {
    FlattenConcat(args, more);
    BinaryOfConcat(Flatten(args), Flatten(more));
  }

  lemma BinaryOfRewrite(args: seq<Arg>, i: nat, middle: seq<Arg>)
    requires AllGood(Claude, args) && HasBinary(args) && i < |args| && IsSettings(args[i])
    ensures SameBinary(Spliced(args, i, middle), args)
  {
    assert Good(Claude, args[i]);
    SettingsIsDash(args[i]);
    BinaryBefore(args, i);
    BinaryOfPrefix(args[..i], middle + args[i + 1..]);
    assert Spliced(args, i, middle) == args[..i] + (middle + args[i + 1..]);
  }

  lemma BinaryOfKept(json: Json, args: seq<Arg>, reasoning: string)
    requires AllGood(Claude, args) && HasBinary(args)
    ensures SameBinary(Kept(json, args, reasoning), args)
  {
    BinaryOfKeep(Claude, args, NotEffort);
    KeepGood(Claude, args, NotEffort);
    BinaryOfKeep(Claude, Keep(args, NotEffort), NotOwnPair);
    BareGood(args);
    var bare := Bare(args);
    var i := First(bare);
    if i < |bare| {
      BinaryOfRewrite(bare, i, ClearArg(json, bare[i]));
      if FoldArg(json, bare[i]).Some? {
        SplicedIs(bare, i, FoldArg(json, bare[i]).value);
        BinaryOfRewrite(bare, i, [FoldArg(json, bare[i]).value]);
      }
    }
  }

  lemma BinaryOfModel(family: Family, args: seq<Arg>, s: Selection)
    requires AllGood(family, args) && SelectsNoFlag(s) && HasBinary(args)
    ensures var modelled := Unmodelled(args, s) + ModelArgs(family, s);
            AllGood(family, modelled) && SameBinary(modelled, args)
  {
    ModelPass(family, args, s);
    BinaryOfKeep(family, args, NotModel);
    BinaryOfPrefix(Unmodelled(args, s), ModelArgs(family, s));
    GoodConcat(family, Unmodelled(args, s), ModelArgs(family, s));
  }

  lemma {:induction false} BinaryOfReasoned(json: Json, family: Family, args: seq<Arg>, s: Selection)
    requires AllGood(family, args) && HasBinary(args)
    ensures SameBinary(ReasonedArgs(json, family, args, s), args)
  {
    if Reasoning(s).Some? {
      match family
      case Claude =>
        BinaryOfKept(json, args, Reasoning(s).value);
        BinaryOfPrefix(Kept(json, args, Reasoning(s).value), Tail(json, args, Reasoning(s).value));
      case Codex =>
        forall t: Token | !IsDash(t) && !IsAssignment(t) ensures NotOverride(Single(t)) {
          WordIsNoOverride(t);
        }
        BinaryOfKeep(family, args, NotOverride);
        BinaryOfPrefix(Keep(args, NotOverride), [Valued("-c", MRE + Reasoning(s).value)]);
      case _ =>
    }
  }

  /** The splice does not change which program the command starts. */
  lemma FamilyStays(json: Json, family: Family, args: seq<Arg>, s: Selection)
    requires AllGood(family, args) && SelectsNoFlag(s) && HasBinary(args)
    ensures SameBinary(AppliedArgs(json, family, args, s), args)
  {
    if !IsEmpty(s) {
      BinaryOfModel(family, args, s);
      BinaryOfReasoned(json, family, Unmodelled(args, s) + ModelArgs(family, s), s);
    }
  }

  // ---------------------------------------------------- filters and suffixes

  /** An argument that no Claude reasoning pass looks at. */
  ghost predicate Neutral(m: seq<Arg>) {
    forall i :: 0 <= i < |m| ==> NotEffort(m[i]) && NotSettings(m[i])
  }

  lemma {:induction false} FirstOfConcat(a: seq<Arg>, m: seq<Arg>)
    requires Neutral(m)
    ensures First(a + m) == if First(a) < |a| then First(a) else |a + m|
  {
    if a == [] {
      assert a + m == m;
    } else {
      assert (a + m)[1..] == a[1..] + m;
      FirstOfConcat(a[1..], m);
    }
  }

  lemma NeutralSuffix(json: Json, a: seq<Arg>, m: seq<Arg>)
    requires Neutral(m)
    ensures Bare(a + m) == Bare(a) + m
    ensures FoldArgs(json, a + m) == FoldArgs(json, a) + m && FoldArgsKind(json, a + m) == FoldArgsKind(json, a)
    ensures ClearArgs(json, a + m) == ClearArgs(json, a) + m
  {
    KeepConcat(a, m, NotEffort);
    KeepAll(m, NotEffort);
    KeepConcat(Keep(a, NotEffort), m, NotOwnPair);
    KeepAll(m, NotOwnPair);
    FirstOfConcat(a, m);
    var i := First(a);
    if i < |a| {
      SuffixOfSplice(a, m, i, ClearArg(json, a[i]));
      if FoldArg(json, a[i]).Some? {
        SuffixOfUpdate(a, m, i, FoldArg(json, a[i]).value);
      }
    }
  }

  lemma SuffixOfSplice(a: seq<Arg>, m: seq<Arg>, i: nat, middle: seq<Arg>)
    requires i < |a|
    ensures (a + m)[i] == a[i]
    ensures (a + m)[..i] + middle + (a + m)[i + 1..] == a[..i] + middle + a[i + 1..] + m
  {
  }

  lemma SuffixOfUpdate(a: seq<Arg>, m: seq<Arg>, i: nat, b: Arg)
    requires i < |a|
    ensures (a + m)[i := b] == a[i := b] + m
  {
  }

  lemma ModelArgsNeutral(family: Family, s: Selection)
    ensures Neutral(ModelArgs(family, s))
  {
  }

  /** The number of settings arguments. */
  function Count(args: seq<Arg>): nat {
    |Keep(args, IsSettings)|
  }

  lemma {:induction false} CountOfKeep(args: seq<Arg>, p: Arg -> bool)
    ensures Count(Keep(args, p)) <= Count(args)
  {
    if args != [] {
      CountOfKeep(args[1..], p);
      if p(args[0]) {
        assert Keep(args, p)[1..] == Keep(args[1..], p);
      }
    }
  }

  lemma {:induction false} CountZero(args: seq<Arg>)
    ensures Count(args) == 0 <==> First(args) == |args|
    ensures Count(args) == 0 ==> forall i :: 0 <= i < |args| ==> !IsSettings(args[i])
  {
    if args != [] {
      CountZero(args[1..]);
      assert forall i :: 0 < i < |args| ==> args[i] == args[1..][i - 1];
    }
  }

  /** With one settings argument, it is the first, and none comes after. */
  lemma {:induction false} OnlyOne(args: seq<Arg>)
    requires Count(args) <= 1 && First(args) < |args|
    ensures forall k :: 0 <= k < |args| && k != First(args) ==> !IsSettings(args[k])
    ensures Keep(args, IsSettings) == [args[First(args)]]
  {
    var rest := args[1..];
    assert forall k :: 0 < k < |args| ==> args[k] == rest[k - 1];
    if IsSettings(args[0]) {
      CountZero(rest);
    } else {
      OnlyOne(rest);
    }
  }

  lemma {:induction false} KeepNone(args: seq<Arg>, p: Arg -> bool)
    requires forall i :: 0 <= i < |args| ==> !p(args[i])
    ensures Keep(args, p) == []
  {
    if args != [] {
      assert !p(args[0]);
      assert forall i :: 0 <= i < |args[1..]| ==> args[1..][i] == args[i + 1];
      KeepNone(args[1..], p);
    }
  }
}
