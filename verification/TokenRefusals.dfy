/** The forms that the scanner refuses wherever they stand (xtask/src/tokens.rs): seven tests at every
    token of every depth. */
module TokenRefusals {
  import opened Options
  import opened Tokens

  datatype Rule = LoneHash | FragmentCall | TtFragment | NestedDefinition | UseFragment | Cfg | IncludeName

  datatype Refused = Refused(line: nat, rule: Rule)

  datatype Test =
    | LoneHashTest
    | FragmentCallTest
    | TtFragmentTest
    | NestedDefinitionTest
    | UseFragmentTest
    | CfgAttributeTest
    | CfgMacroTest

  /** The tests in the order they are tried. */
  const TESTS: seq<Test> := [
    LoneHashTest, FragmentCallTest, TtFragmentTest, NestedDefinitionTest, UseFragmentTest,
    CfgAttributeTest, CfgMacroTest
  ]

  function RuleOf(test: Test): Rule
  {
    match test
    case LoneHashTest => LoneHash
    case FragmentCallTest => FragmentCall
    case TtFragmentTest => TtFragment
    case NestedDefinitionTest => NestedDefinition
    case UseFragmentTest => UseFragment
    case CfgAttributeTest => Cfg
    case CfgMacroTest => Cfg
  }

  // ----- what some tests look for at any depth

  /** `here` holds at some token of the tokens or of a group inside them. */
  predicate Anywhere(tokens: seq<Token>, here: (seq<Token>, nat) -> bool)
    decreases tokens
  {
    exists i :: 0 <= i < |tokens| && (here(tokens, i) || (tokens[i].Group? && Anywhere(tokens[i].stream, here)))
  }

  ghost predicate AtSomePlace(tokens: seq<Token>, here: (seq<Token>, nat) -> bool)
  {
    exists path: seq<nat>, i: nat ::
      IsPath(tokens, path) && i < |StreamAt(tokens, path)| && here(StreamAt(tokens, path), i)
  }

  lemma {:induction false} PlaceIsAnywhere(tokens: seq<Token>, here: (seq<Token>, nat) -> bool, path: seq<nat>, i: nat)
    requires IsPath(tokens, path) && i < |StreamAt(tokens, path)| && here(StreamAt(tokens, path), i)
    ensures Anywhere(tokens, here)
    decreases |path|
  {
    if path == [] {
    } else {
      PlaceIsAnywhere(tokens[path[0]].stream, here, path[1..], i);
    }
  }

  /** The search into every group finds what stands at some place, and nothing else. */
  lemma {:induction false} AnywhereExactly(tokens: seq<Token>, here: (seq<Token>, nat) -> bool)
    ensures Anywhere(tokens, here) <==> AtSomePlace(tokens, here)
    decreases tokens
  {
    if Anywhere(tokens, here) {
      var i :| 0 <= i < |tokens| && (here(tokens, i) || (tokens[i].Group? && Anywhere(tokens[i].stream, here)));
      if here(tokens, i) {
        assert IsPath(tokens, []) && here(StreamAt(tokens, []), i);
      } else {
        var stream := tokens[i].stream;
        AnywhereExactly(stream, here);
        var path: seq<nat>, h: nat :|
          IsPath(stream, path) && h < |StreamAt(stream, path)| && here(StreamAt(stream, path), h);
        PathDown(tokens, i, path);
      }
    } else if AtSomePlace(tokens, here) {
      var path: seq<nat>, i: nat :|
        IsPath(tokens, path) && i < |StreamAt(tokens, path)| && here(StreamAt(tokens, path), i);
      PlaceIsAnywhere(tokens, here, path, i);
    }
  }

  predicate StartsADefinition(tokens: seq<Token>, i: nat)
  {
    IsWord(tokens, i, "macro_rules") && IsPunct(tokens, i + 1, '!')
  }

  /** A `$` that is not the start of `$crate`. */
  predicate StartsAFragment(tokens: seq<Token>, i: nat)
  {
    IsPunct(tokens, i, '$') && !IsWord(tokens, i + 1, "crate")
  }

  predicate ClippyOrFragment(tokens: seq<Token>, i: nat)
  {
    IsWord(tokens, i, "clippy") || IsPunct(tokens, i, '$')
  }

  predicate DefinesAMacro(tokens: seq<Token>) { Anywhere(tokens, StartsADefinition) }

  predicate HoldsAFragment(tokens: seq<Token>) { Anywhere(tokens, StartsAFragment) }

  predicate NamesClippyOrAFragment(tokens: seq<Token>) { Anywhere(tokens, ClippyOrFragment) }

  // ----- the tests

  predicate IsLoneHash(tokens: seq<Token>, i: nat)
  {
    IsPunct(tokens, i, '#') && AttributeGroup(tokens, i).None?
  }

  /** A `!` after a fragment or a repetition, unless `!=`. */
  predicate IsFragmentCall(tokens: seq<Token>, i: nat)
  {
    IsPunct(tokens, i, '!') && !IsPunct(tokens, i + 1, '=') && (AfterFragment(tokens, i) || AfterRepetition(tokens, i))
  }

  predicate AfterFragment(tokens: seq<Token>, i: nat)
  {
    i >= 2 && IsPunct(tokens, i - 2, '$') && IsIdent(tokens, i - 1) && !IsWord(tokens, i - 1, "crate")
  }

  /** The last group before `n`. */
  function LastGroup(tokens: seq<Token>, n: nat): (at: Option<nat>)
    requires n <= |tokens|
    ensures at.None? ==> forall k :: 0 <= k < n ==> !tokens[k].Group?
    ensures at.Some? ==> at.value < n && tokens[at.value].Group? && forall k :: at.value < k < n ==> !tokens[k].Group?
  {
    if n == 0 then None else if tokens[n - 1].Group? then Some(n - 1) else LastGroup(tokens, n - 1)
  }

  /** A repetition `$(..)` ends before `i`: at most three separator tokens and an operator after its group. */
  predicate AfterRepetition(tokens: seq<Token>, i: nat)
    requires i <= |tokens|
  {
    && i >= 1
    && (IsPunct(tokens, i - 1, '*') || IsPunct(tokens, i - 1, '+') || IsPunct(tokens, i - 1, '?'))
    && var at := LastGroup(tokens, i - 1);
       at.Some? && i - 1 - at.value <= 4 && OpensARepetition(tokens, at.value)
  }

  predicate OpensARepetition(tokens: seq<Token>, at: nat)
  {
    at >= 1 && IsPunct(tokens, at - 1, '$') && IsGroup(tokens, at) && tokens[at].delimiter == Parenthesis
  }

  predicate IsTtFragment(tokens: seq<Token>, i: nat)
  {
    IsPunct(tokens, i, '$') && IsIdent(tokens, i + 1) && IsPunct(tokens, i + 2, ':') && IsWord(tokens, i + 3, "tt")
  }

  predicate IsNestedDefinition(tokens: seq<Token>, i: nat)
  {
    StartsADefinition(tokens, i) && IsGroup(tokens, i + 3) && DefinesAMacro(tokens[i + 3].stream)
  }

  predicate IsUseFragment(tokens: seq<Token>, i: nat)
  {
    var end := UseItemEnd(tokens, i);
    end.Some? && HoldsAFragment(tokens[i + 1..end.value])
  }

  predicate IsCfgAttribute(tokens: seq<Token>, i: nat)
  {
    IsPunct(tokens, i, '#') &&
    var at := AttributeGroup(tokens, i);
    at.Some? && HidesFromClippy(tokens[at.value].stream)
  }

  /** A `cfg` predicate, alone or in a `cfg_attr` at any depth, names clippy or holds a fragment. */
  predicate HidesFromClippy(meta: seq<Token>)
    decreases Size(meta)
  {
    var (segments, used) := PathOf(meta);
    segments != [] && IsGroup(meta, used) &&
    var last, list := segments[|segments| - 1], meta[used].stream;
    if last == "cfg" then NamesClippyOrAFragment(list)
    else if last == "cfg_attr" then
      SizeAt(meta, used);
      PartsSize(list);
      var parts := Parts(list);
      parts != [] &&
      (NamesClippyOrAFragment(parts[0]) || exists k :: 1 <= k < |parts| && HidesFromClippy(parts[k]))
    else false
  }

  predicate IsCfgMacro(tokens: seq<Token>, i: nat)
  {
    IsWord(tokens, i, "cfg") && IsPunct(tokens, i + 1, '!') && IsGroup(tokens, i + 2) &&
    NamesClippyOrAFragment(tokens[i + 2].stream)
  }

  predicate Trips(test: Test, tokens: seq<Token>, i: nat)
  {
    match test
    case LoneHashTest => IsLoneHash(tokens, i)
    case FragmentCallTest => IsFragmentCall(tokens, i)
    case TtFragmentTest => IsTtFragment(tokens, i)
    case NestedDefinitionTest => IsNestedDefinition(tokens, i)
    case UseFragmentTest => IsUseFragment(tokens, i)
    case CfgAttributeTest => IsCfgAttribute(tokens, i)
    case CfgMacroTest => IsCfgMacro(tokens, i)
  }

  // ----- the pass

  /** What the first `n` tests refuse at the token at `i`. */
  function Here(tokens: seq<Token>, i: nat, n: nat): seq<Refused>
    requires i < |tokens| && n <= |TESTS|
  {
    if n == 0 then []
    else
      var test := TESTS[n - 1];
      Here(tokens, i, n - 1) + (if Trips(test, tokens, i) then [Refused(tokens[i].line, RuleOf(test))] else [])
  }

  function HereAll(tokens: seq<Token>, i: nat): seq<Refused>
  {
    if i < |tokens| then Here(tokens, i, |TESTS|) else []
  }

  /** What `here` gives at the first `n` tokens, at each followed by what it gives inside. */
  function Gather<R>(tokens: seq<Token>, n: nat, here: (seq<Token>, nat) -> seq<R>): seq<R>
    requires n <= |tokens|
    decreases Size(tokens), n
  {
    if n == 0 then []
    else
      SizeAt(tokens, n - 1);
      Gather(tokens, n - 1, here) + here(tokens, n - 1) +
      (match tokens[n - 1]
       case Group(_, stream, _) => Gather(stream, |stream|, here)
       case _ => [])
  }

  function Refusals(tokens: seq<Token>, n: nat): seq<Refused>
    requires n <= |tokens|
  {
    Gather(tokens, n, HereAll)
  }

  ghost predicate GivenSomewhere<R>(tokens: seq<Token>, here: (seq<Token>, nat) -> seq<R>, x: R)
  {
    exists path: seq<nat>, i: nat ::
      IsPath(tokens, path) && i < |StreamAt(tokens, path)| && x in here(StreamAt(tokens, path), i)
  }

  ghost predicate GivenAt<R>(tokens: seq<Token>, i: nat, here: (seq<Token>, nat) -> seq<R>, x: R)
    requires i < |tokens|
  {
    x in here(tokens, i) || (tokens[i].Group? && x in Gather(tokens[i].stream, |tokens[i].stream|, here))
  }

  ghost predicate Gathered<R>(tokens: seq<Token>, n: nat, here: (seq<Token>, nat) -> seq<R>, x: R)
    requires n <= |tokens|
  {
    x in Gather(tokens, n, here)
  }

  lemma GatherNext<R>(tokens: seq<Token>, i: nat, here: (seq<Token>, nat) -> seq<R>, x: R)
    requires i < |tokens|
    ensures Gathered(tokens, i + 1, here, x) <==> Gathered(tokens, i, here, x) || GivenAt(tokens, i, here, x)
  {
  }

  lemma {:induction false} GatherGrows<R>(tokens: seq<Token>, m: nat, n: nat, here: (seq<Token>, nat) -> seq<R>, x: R)
    requires m <= n <= |tokens| && Gathered(tokens, m, here, x)
    ensures Gathered(tokens, n, here, x)
  {
    if m == n {
    } else {
      GatherGrows(tokens, m, n - 1, here, x);
      GatherNext(tokens, n - 1, here, x);
    }
  }

  lemma GatherAt<R>(tokens: seq<Token>, here: (seq<Token>, nat) -> seq<R>, i: nat, x: R)
    requires i < |tokens| && GivenAt(tokens, i, here, x)
    ensures Gathered(tokens, |tokens|, here, x)
  {
    GatherNext(tokens, i, here, x);
    GatherGrows(tokens, i + 1, |tokens|, here, x);
  }

  lemma {:induction false} GatherGiven<R>(tokens: seq<Token>, n: nat, here: (seq<Token>, nat) -> seq<R>, x: R)
    requires n <= |tokens| && x in Gather(tokens, n, here)
    ensures GivenSomewhere(tokens, here, x)
    decreases Size(tokens), n
  {
    if n == 0 {
    } else {
      var i := n - 1;
      SizeAt(tokens, i);
      GatherNext(tokens, i, here, x);
      if Gathered(tokens, i, here, x) {
        GatherGiven(tokens, i, here, x);
      } else if x in here(tokens, i) {
        assert IsPath(tokens, []) && x in here(StreamAt(tokens, []), i);
      } else {
        var stream := tokens[i].stream;
        GatherGiven(stream, |stream|, here, x);
        GivenDown(tokens, i, here, x);
      }
    }
  }

  lemma GivenDown<R>(tokens: seq<Token>, i: nat, here: (seq<Token>, nat) -> seq<R>, x: R)
    requires IsGroup(tokens, i) && GivenSomewhere(tokens[i].stream, here, x)
    ensures GivenSomewhere(tokens, here, x)
  {
    var stream := tokens[i].stream;
    var path: seq<nat>, h: nat :|
      IsPath(stream, path) && h < |StreamAt(stream, path)| && x in here(StreamAt(stream, path), h);
    PathDown(tokens, i, path);
  }

  lemma {:induction false} GivenIsGathered<R>(tokens: seq<Token>, here: (seq<Token>, nat) -> seq<R>, x: R,
                                              path: seq<nat>, i: nat)
    requires IsPath(tokens, path) && i < |StreamAt(tokens, path)| && x in here(StreamAt(tokens, path), i)
    ensures x in Gather(tokens, |tokens|, here)
    decreases |path|
  {
    if path == [] {
      GatherAt(tokens, here, i, x);
    } else {
      GivenIsGathered(tokens[path[0]].stream, here, x, path[1..], i);
      GatherAt(tokens, here, path[0], x);
    }
  }

  /** The pass gathers exactly what is given at some token of some depth. */
  lemma GatherExactly<R>(tokens: seq<Token>, here: (seq<Token>, nat) -> seq<R>, x: R)
    ensures x in Gather(tokens, |tokens|, here) <==> GivenSomewhere(tokens, here, x)
  {
    if x in Gather(tokens, |tokens|, here) {
      GatherGiven(tokens, |tokens|, here, x);
    } else if GivenSomewhere(tokens, here, x) {
      var path: seq<nat>, i: nat :|
        IsPath(tokens, path) && i < |StreamAt(tokens, path)| && x in here(StreamAt(tokens, path), i);
      GivenIsGathered(tokens, here, x, path, i);
    }
  }

  ghost predicate RefusedAt(tokens: seq<Token>, i: nat, refused: Refused)
  {
    i < |tokens| && refused.line == tokens[i].line &&
    exists test :: Trips(test, tokens, i) && RuleOf(test) == refused.rule
  }

  ghost predicate RefusedPlaced(tokens: seq<Token>, refused: Refused)
  {
    exists path: seq<nat>, i: nat :: IsPath(tokens, path) && RefusedAt(StreamAt(tokens, path), i, refused)
  }

  lemma {:induction false} HereHas(tokens: seq<Token>, i: nat, n: nat, refused: Refused)
    requires i < |tokens| && n <= |TESTS|
    ensures refused in Here(tokens, i, n) <==>
            refused.line == tokens[i].line &&
            exists k :: 0 <= k < n && Trips(TESTS[k], tokens, i) && RuleOf(TESTS[k]) == refused.rule
  {
    if n == 0 {
    } else {
      HereHas(tokens, i, n - 1, refused);
    }
  }

  lemma EveryTest(test: Test) returns (k: nat)
    ensures k < |TESTS| && TESTS[k] == test
  {
    match test {
      case LoneHashTest => k := 0;
      case FragmentCallTest => k := 1;
      case TtFragmentTest => k := 2;
      case NestedDefinitionTest => k := 3;
      case UseFragmentTest => k := 4;
      case CfgAttributeTest => k := 5;
      case CfgMacroTest => k := 6;
    }
  }

  lemma HereExactly(tokens: seq<Token>, i: nat, refused: Refused)
    requires i < |tokens|
    ensures refused in Here(tokens, i, |TESTS|) <==> RefusedAt(tokens, i, refused)
  {
    HereHas(tokens, i, |TESTS|, refused);
    if RefusedAt(tokens, i, refused) {
      var test :| Trips(test, tokens, i) && RuleOf(test) == refused.rule;
      var k := EveryTest(test);
    }
  }

  /** A form is refused exactly when one of the seven tests holds at some token of some depth. */
  lemma RefusalsExactly(tokens: seq<Token>, refused: Refused)
    ensures refused in Refusals(tokens, |tokens|) <==> RefusedPlaced(tokens, refused)
  {
    GatherExactly(tokens, HereAll, refused);
    forall inner: seq<Token>, i: nat
      ensures i < |inner| && refused in HereAll(inner, i) <==> RefusedAt(inner, i, refused)
    {
      if i < |inner| { HereExactly(inner, i, refused); }
    }
  }

  /** A `#` on `line` that no group in square brackets follows. */
  ghost predicate LoneAt(tokens: seq<Token>, h: nat, line: nat)
  {
    h < |tokens| && tokens[h] == Punct('#', line) && forall p :: !OpensAt(tokens, h, p)
  }

  lemma LoneIsRefused(tokens: seq<Token>, h: nat, line: nat)
    ensures RefusedAt(tokens, h, Refused(line, LoneHash)) <==> LoneAt(tokens, h, line)
  {
    assert Trips(LoneHashTest, tokens, h) <==> IsLoneHash(tokens, h);
    assert forall test :: RuleOf(test) == LoneHash <==> test == LoneHashTest;
  }

  ghost predicate LonePlaced(tokens: seq<Token>, line: nat)
  {
    exists path: seq<nat>, h: nat :: IsPath(tokens, path) && LoneAt(StreamAt(tokens, path), h, line)
  }

  /** A line is refused for a lone hash exactly when some hash on it, at some depth, opens no attribute. */
  lemma LoneHashesExactly(tokens: seq<Token>, line: nat)
    ensures Refused(line, LoneHash) in Refusals(tokens, |tokens|) <==> LonePlaced(tokens, line)
  {
    var refused := Refused(line, LoneHash);
    RefusalsExactly(tokens, refused);
    if RefusedPlaced(tokens, refused) {
      var path: seq<nat>, h: nat :| IsPath(tokens, path) && RefusedAt(StreamAt(tokens, path), h, refused);
      LoneIsRefused(StreamAt(tokens, path), h, line);
    } else if LonePlaced(tokens, line) {
      var path: seq<nat>, h: nat :| IsPath(tokens, path) && LoneAt(StreamAt(tokens, path), h, line);
      LoneIsRefused(StreamAt(tokens, path), h, line);
    }
  }

  /** The tests refuse no include name; that rule has its own pass. */
  lemma NoIncludeName(tokens: seq<Token>, refused: Refused)
    requires RefusedPlaced(tokens, refused)
    ensures refused.rule != IncludeName
  {
    var path: seq<nat>, i: nat :| IsPath(tokens, path) && RefusedAt(StreamAt(tokens, path), i, refused);
    var test :| Trips(test, StreamAt(tokens, path), i) && RuleOf(test) == refused.rule;
  }
}
