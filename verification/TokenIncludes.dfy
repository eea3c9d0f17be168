/** Which `include` identifiers the scan records (xtask/src/tokens.rs): exactly the literal calls, those
    in a use item and the bare ones, although the three passes each skip different tokens. */
module TokenIncludes {
  import opened Options
  import opened Tokens
  import opened TokenWalk
  import opened TokenCoverage
  import opened TokenRecords

  const INCLUDE := "include"

  // ----- occurrences, by the tree alone

  /** `token` is an `include` identifier on `line`, or holds one at some depth. */
  ghost predicate IncludeIn(token: Token, line: nat)
  {
    match token
    case Ident(text, at) => Plain(text) == INCLUDE && at == line
    case Group(_, stream, _) => exists i :: 0 <= i < |stream| && IncludeIn(stream[i], line)
    case _ => false
  }

  ghost predicate Occurs(tokens: seq<Token>, line: nat)
  {
    exists i :: 0 <= i < |tokens| && IncludeIn(tokens[i], line)
  }

  predicate IncludeAtLine(tokens: seq<Token>, i: nat, line: nat)
  {
    IsWord(tokens, i, INCLUDE) && tokens[i].line == line
  }

  /** Some stream of the tree has a literal `include!(..)` on `line`. */
  ghost predicate Called(tokens: seq<Token>, line: nat)
  {
    exists path: seq<nat>, i: nat :: IsPath(tokens, path) && CallAt(StreamAt(tokens, path), i, line)
  }

  predicate CallAt(tokens: seq<Token>, i: nat, line: nat)
  {
    IncludeAtLine(tokens, i, line) && IsCall(tokens, i)
  }

  /** Some stream of the tree has an `include` on `line` in the span of a `use` that is no macro's name. */
  ghost predicate Used(tokens: seq<Token>, line: nat)
  {
    exists path: seq<nat>, u: nat, p: nat :: IsPath(tokens, path) && UsedAt(StreamAt(tokens, path), u, p, line)
  }

  ghost predicate UsedAt(tokens: seq<Token>, u: nat, p: nat, line: nat)
  {
    InSpan(tokens, u, p) && !NamesAMacro(tokens, u) && IncludeIn(tokens[p], line)
  }

  ghost predicate Free(tokens: seq<Token>, p: nat)
  {
    forall u :: 0 <= u < p ==> !InSpan(tokens, u, p)
  }

  /** An `include` on `line` that is no call, with no `use` span around it at any depth. */
  ghost predicate Bare(tokens: seq<Token>, line: nat)
    decreases tokens, 1
  {
    exists p :: 0 <= p < |tokens| && Free(tokens, p) && BareAt(tokens, p, line)
  }

  ghost predicate BareAt(tokens: seq<Token>, p: nat, line: nat)
    requires p < |tokens|
    decreases tokens, 0
  {
    (IncludeAtLine(tokens, p, line) && !IsCall(tokens, p)) || (tokens[p].Group? && Bare(tokens[p].stream, line))
  }

  /** The scan holds an `include` on `line` as a macro call or a use name. */
  ghost predicate Named(scan: Scan, line: nat)
  {
    Located(line, INCLUDE) in scan.calls || Located(line, INCLUDE) in scan.uses
  }

  ghost predicate Recorded(tokens: seq<Token>, bound: Bound, line: nat)
  {
    Named(Walk(tokens, bound), line) || line in IncludeNames(tokens)
  }

  // ----- the identifiers of a use item

  /** A token holds an `include` on the line exactly when it is among its identifiers. */
  lemma {:induction false} IncludeIdentifiers(token: Token, line: nat)
    ensures IncludeIn(token, line) <==> Located(line, INCLUDE) in IdentifiersOf(token)
    decreases token
  {
    if token.Group? {
      forall i | 0 <= i < |token.stream|
        ensures IncludeIn(token.stream[i], line) <==> Located(line, INCLUDE) in IdentifiersOf(token.stream[i])
      {
        IncludeIdentifiers(token.stream[i], line);
      }
      if IncludeIn(token, line) {
        var i :| 0 <= i < |token.stream| && IncludeIn(token.stream[i], line);
        IdentifiersAt(token.stream, i, Located(line, INCLUDE));
      } else if Located(line, INCLUDE) in IdentifiersOf(token) {
        var i := IdentifiersFrom(token.stream, Located(line, INCLUDE));
      }
    }
  }

  // ----- the walk records every call and every use

  lemma CallIsNamed(tokens: seq<Token>, bound: Bound, line: nat)
    requires Called(tokens, line)
    ensures Named(Walk(tokens, bound), line)
  {
    var path: seq<nat>, i: nat :| IsPath(tokens, path) && CallAt(StreamAt(tokens, path), i, line);
    assert Gives(StreamAt(tokens, path), i, CallRecord(Located(line, INCLUDE)));
    GivenIsHeld(tokens, bound, CallRecord(Located(line, INCLUDE)));
  }

  lemma UseIsNamed(tokens: seq<Token>, bound: Bound, line: nat)
    requires Used(tokens, line)
    ensures Named(Walk(tokens, bound), line)
  {
    var path: seq<nat>, u: nat, p: nat :| IsPath(tokens, path) && UsedAt(StreamAt(tokens, path), u, p, line);
    IncludeIdentifiers(StreamAt(tokens, path)[p], line);
    assert Gives(StreamAt(tokens, path), p, UseRecord(Located(line, INCLUDE)));
    GivenIsHeld(tokens, bound, UseRecord(Located(line, INCLUDE)));
  }

  // ----- and nothing else

  ghost predicate CalledOrUsed(tokens: seq<Token>, line: nat) { Called(tokens, line) || Used(tokens, line) }

  lemma CalledOrUsedDown(tokens: seq<Token>, i: nat, line: nat)
    requires IsGroup(tokens, i) && CalledOrUsed(tokens[i].stream, line)
    ensures CalledOrUsed(tokens, line)
  {
    var stream := tokens[i].stream;
    if Called(stream, line) {
      var path: seq<nat>, k: nat :| IsPath(stream, path) && CallAt(StreamAt(stream, path), k, line);
      PathDown(tokens, i, path);
    } else {
      var path: seq<nat>, u: nat, p: nat :| IsPath(stream, path) && UsedAt(StreamAt(stream, path), u, p, line);
      PathDown(tokens, i, path);
    }
  }

  lemma NamedByWalk(tokens: seq<Token>, bound: Bound, line: nat)
    requires Named(Walk(tokens, bound), line)
    ensures CalledOrUsed(tokens, line)
  {
    var at := Located(line, INCLUDE);
    if Holds(Walk(tokens, bound), CallRecord(at)) {
      HeldByWalk(tokens, bound, CallRecord(at));
      var path: seq<nat>, i: nat :| IsPath(tokens, path) && Gives(StreamAt(tokens, path), i, CallRecord(at));
      assert CallAt(StreamAt(tokens, path), i, line);
    } else {
      HeldByWalk(tokens, bound, UseRecord(at));
      var path: seq<nat>, p: nat :| IsPath(tokens, path) && Gives(StreamAt(tokens, path), p, UseRecord(at));
      var u: nat :| InSpan(StreamAt(tokens, path), u, p) && !NamesAMacro(StreamAt(tokens, path), u);
      IncludeIdentifiers(StreamAt(tokens, path)[p], line);
      assert UsedAt(StreamAt(tokens, path), u, p, line);
    }
  }

  // ----- the include pass records exactly the bare ones

  ghost predicate Passes(tokens: seq<Token>, i: nat, p: nat)
    decreases |tokens| - i
  {
    i < |tokens| && (i == p || Passes(tokens, IncludeNext(tokens, i), p))
  }

  lemma {:induction false} PassesLater(tokens: seq<Token>, i: nat, p: nat)
    requires Passes(tokens, i, p)
    ensures i <= p < |tokens|
    decreases |tokens| - i
  {
    if i == p {
    } else {
      PassesLater(tokens, IncludeNext(tokens, i), p);
    }
  }

  lemma {:induction false} PassedOver(tokens: seq<Token>, i: nat, p: nat) returns (u: nat)
    requires i <= p < |tokens| && !Passes(tokens, i, p)
    ensures i <= u < p && InSpan(tokens, u, p)
    decreases |tokens| - i
  {
    if p < IncludeNext(tokens, i) {
      u := i;
    } else {
      u := PassedOver(tokens, IncludeNext(tokens, i), p);
    }
  }

  /** A span goes on to the same `;` from any place in it. */
  lemma {:induction false} SameSemicolon(tokens: seq<Token>, from: nat, u: nat)
    requires from <= |tokens| && from <= u < NextSemicolon(tokens, from)
    ensures u < |tokens| && NextSemicolon(tokens, u + 1) == NextSemicolon(tokens, from)
    decreases |tokens| - from
  {
    if from == u {
    } else {
      SameSemicolon(tokens, from + 1, u);
    }
  }

  /** The pass stands on a token exactly when no `use` span holds it: a `use` inside a span ends it
      nowhere else. */
  lemma {:induction false} PassesFree(tokens: seq<Token>, i: nat, p: nat)
    requires Passes(tokens, i, p)
    ensures forall u :: i <= u < p ==> !InSpan(tokens, u, p)
    decreases |tokens| - i
  {
    PassesLater(tokens, i, p);
    if i == p {
    } else {
      var next := IncludeNext(tokens, i);
      PassesLater(tokens, next, p);
      PassesFree(tokens, next, p);
      forall u | i < u < next ensures !InSpan(tokens, u, p) {
        if InSpan(tokens, u, p) { SameSemicolon(tokens, i + 1, u); }
      }
    }
  }

  lemma FreeIsPassed(tokens: seq<Token>, p: nat)
    requires p < |tokens|
    ensures Free(tokens, p) <==> Passes(tokens, 0, p)
  {
    if Passes(tokens, 0, p) {
      PassesFree(tokens, 0, p);
    } else {
      var u := PassedOver(tokens, 0, p);
    }
  }

  lemma {:induction false} PassedIsRefused(tokens: seq<Token>, i: nat, p: nat, line: nat)
    requires Passes(tokens, i, p) && p < |tokens| && line in IncludeAt(tokens, p)
    ensures line in IncludeFrom(tokens, i)
    decreases |tokens| - i
  {
    if i == p {
    } else {
      PassedIsRefused(tokens, IncludeNext(tokens, i), p, line);
    }
  }

  lemma {:induction false} RefusedIsPassed(tokens: seq<Token>, i: nat, line: nat) returns (p: nat)
    requires line in IncludeFrom(tokens, i)
    ensures p < |tokens| && Passes(tokens, i, p) && line in IncludeAt(tokens, p)
    decreases |tokens| - i
  {
    if line in IncludeAt(tokens, i) {
      p := i;
    } else {
      p := RefusedIsPassed(tokens, IncludeNext(tokens, i), line);
    }
  }

  lemma {:induction false} RefusedIsBare(tokens: seq<Token>, line: nat)
    ensures line in IncludeNames(tokens) <==> Bare(tokens, line)
    decreases Size(tokens), 1
  {
    assert IncludeNames(tokens) == IncludeFrom(tokens, 0);
    if line in IncludeNames(tokens) {
      var p := RefusedIsPassed(tokens, 0, line);
      FreeIsPassed(tokens, p);
      RefusedHere(tokens, p, line);
    } else if Bare(tokens, line) {
      var p :| 0 <= p < |tokens| && Free(tokens, p) && BareAt(tokens, p, line);
      FreeIsPassed(tokens, p);
      RefusedHere(tokens, p, line);
      PassedIsRefused(tokens, 0, p, line);
    }
  }

  lemma {:induction false} RefusedHere(tokens: seq<Token>, p: nat, line: nat)
    requires p < |tokens|
    ensures line in IncludeAt(tokens, p) <==> BareAt(tokens, p, line)
    decreases Size(tokens), 0
  {
    SizeAt(tokens, p);
    if tokens[p].Group? { RefusedIsBare(tokens[p].stream, line); }
  }

  /** In every tree and under any fragments, a line is recorded exactly when it has a literal call, an
      `include` in a use item, or a bare `include`. */
  lemma RecordedExactly(tokens: seq<Token>, bound: Bound, line: nat)
    ensures Recorded(tokens, bound, line) <==> Called(tokens, line) || Used(tokens, line) || Bare(tokens, line)
  {
    RefusedIsBare(tokens, line);
    if Named(Walk(tokens, bound), line) { NamedByWalk(tokens, bound, line); }
    if Called(tokens, line) { CallIsNamed(tokens, bound, line); }
    if Used(tokens, line) { UseIsNamed(tokens, bound, line); }
  }

  // ----- which occurrences that leaves out

  /** A macro definition whose own name is `use`, which the include pass takes for a use item. */
  predicate DefinesUse(tokens: seq<Token>, i: nat)
  {
    IsDefinition(tokens, i) && IsWord(tokens, i + 2, "use")
  }

  ghost predicate NoMacroNamedUse(tokens: seq<Token>)
  {
    forall i :: 0 <= i < |tokens| ==>
      !DefinesUse(tokens, i) && (tokens[i].Group? ==> NoMacroNamedUse(tokens[i].stream))
  }

  /** Some stream of the tree has an `include` on `line` in the span after a macro named `use`. */
  ghost predicate Veiled(tokens: seq<Token>, line: nat)
  {
    exists path: seq<nat>, d: nat, p: nat :: IsPath(tokens, path) && VeiledAt(StreamAt(tokens, path), d, p, line)
  }

  ghost predicate VeiledAt(tokens: seq<Token>, d: nat, p: nat, line: nat)
  {
    DefinesUse(tokens, d) && InSpan(tokens, d + 2, p) && IncludeIn(tokens[p], line)
  }

  lemma {:induction false} NoUseInside(tokens: seq<Token>, path: seq<nat>)
    requires IsPath(tokens, path) && NoMacroNamedUse(tokens)
    ensures NoMacroNamedUse(StreamAt(tokens, path))
    decreases |path|
  {
    if path == [] {
    } else {
      NoUseInside(tokens[path[0]].stream, path[1..]);
    }
  }

  lemma NothingVeiled(tokens: seq<Token>, line: nat)
    requires NoMacroNamedUse(tokens)
    ensures !Veiled(tokens, line)
  {
    forall path: seq<nat>, d: nat, p: nat | IsPath(tokens, path) ensures !VeiledAt(StreamAt(tokens, path), d, p, line) {
      NoUseInside(tokens, path);
    }
  }

  /** Every occurrence is of one of the three kinds, or lies after a macro named `use`. */
  lemma {:induction false} OccurrenceKinds(tokens: seq<Token>, line: nat)
    requires Occurs(tokens, line)
    ensures CalledOrUsed(tokens, line) || Bare(tokens, line) || Veiled(tokens, line)
    decreases tokens
  {
    var p :| 0 <= p < |tokens| && IncludeIn(tokens[p], line);
    assert IsPath(tokens, []) && StreamAt(tokens, []) == tokens;
    if !Free(tokens, p) {
      var u :| 0 <= u < p && InSpan(tokens, u, p);
      assert UsedAt(StreamAt(tokens, []), u, p, line) || VeiledAt(StreamAt(tokens, []), u - 2, p, line);
    } else if tokens[p].Ident? {
      assert CallAt(StreamAt(tokens, []), p, line) || BareAt(tokens, p, line);
    } else {
      OccurrenceKinds(tokens[p].stream, line);
      KindsDown(tokens, p, line);
    }
  }

  lemma KindsDown(tokens: seq<Token>, p: nat, line: nat)
    requires IsGroup(tokens, p) && Free(tokens, p)
    requires var stream := tokens[p].stream;
             CalledOrUsed(stream, line) || Bare(stream, line) || Veiled(stream, line)
    ensures CalledOrUsed(tokens, line) || Bare(tokens, line) || Veiled(tokens, line)
  {
    var stream := tokens[p].stream;
    if CalledOrUsed(stream, line) {
      CalledOrUsedDown(tokens, p, line);
    } else if Veiled(stream, line) {
      var path: seq<nat>, d: nat, q: nat :| IsPath(stream, path) && VeiledAt(StreamAt(stream, path), d, q, line);
      PathDown(tokens, p, path);
    } else {
      assert BareAt(tokens, p, line);
    }
  }

  /** Each `include` identifier at any depth is recorded, or lies in the span after a macro named `use`. */
  lemma RecordedOrVeiled(tokens: seq<Token>, bound: Bound, line: nat)
    requires Occurs(tokens, line)
    ensures Recorded(tokens, bound, line) || Veiled(tokens, line)
  {
    OccurrenceKinds(tokens, line);
    RecordedExactly(tokens, bound, line);
  }

  // ----- nothing else is recorded

  lemma {:induction false} OccursDown(tokens: seq<Token>, path: seq<nat>, line: nat)
    requires IsPath(tokens, path) && Occurs(StreamAt(tokens, path), line)
    ensures Occurs(tokens, line)
    decreases |path|
  {
    if path == [] {
    } else {
      OccursDown(tokens[path[0]].stream, path[1..], line);
      assert IncludeIn(tokens[path[0]], line);
    }
  }

  lemma {:induction false} BareOccurs(tokens: seq<Token>, line: nat)
    requires Bare(tokens, line)
    ensures Occurs(tokens, line)
    decreases tokens
  {
    var p :| 0 <= p < |tokens| && Free(tokens, p) && BareAt(tokens, p, line);
    if tokens[p].Group? { BareOccurs(tokens[p].stream, line); }
    assert IncludeIn(tokens[p], line);
  }

  /** In every tree, what is recorded as an `include` is one of its identifiers. */
  lemma RecordedOccurs(tokens: seq<Token>, bound: Bound, line: nat)
    requires Recorded(tokens, bound, line)
    ensures Occurs(tokens, line)
  {
    RecordedExactly(tokens, bound, line);
    if Called(tokens, line) {
      var path: seq<nat>, i: nat :| IsPath(tokens, path) && CallAt(StreamAt(tokens, path), i, line);
      assert IncludeIn(StreamAt(tokens, path)[i], line);
      OccursDown(tokens, path, line);
    } else if Used(tokens, line) {
      var path: seq<nat>, u: nat, p: nat :| IsPath(tokens, path) && UsedAt(StreamAt(tokens, path), u, p, line);
      OccursDown(tokens, path, line);
    } else {
      BareOccurs(tokens, line);
    }
  }

  /** In a tree where no macro is named `use`, the lines recorded are exactly those of its `include`
      identifiers at every depth. */
  lemma EveryIncludeIsRecorded(tokens: seq<Token>, bound: Bound, line: nat)
    requires NoMacroNamedUse(tokens)
    ensures Recorded(tokens, bound, line) <==> Occurs(tokens, line)
  {
    NothingVeiled(tokens, line);
    if Recorded(tokens, bound, line) {
      RecordedOccurs(tokens, bound, line);
    } else if Occurs(tokens, line) {
      RecordedOrVeiled(tokens, bound, line);
    }
  }

  // ----- the condition is needed

  lemma BareBody(line: nat, b: Bound)
    ensures var body := [Ident("include", line)];
            Walk(body, b) == NOTHING.(words := [Located(line, "include")])
  {
    var body := [Ident("include", line)];
    assert Plain("include") == "include" && |"include"| == 7 && |"macro_rules"| == 11 && |"use"| == 3;
    assert !IsDefinition(body, 0) && UseItemEnd(body, 0) == None && !IsCall(body, 0);
    assert WalkAt(body, 0, b) == IdentScan(body, 0);
    assert WalkFrom(body, 1, b) == NOTHING;
    assert Walk(body, b) == Plus(WalkAt(body, 0, b), WalkFrom(body, 1, b));
  }

  /** The rule `() => { include }`. */
  function OneRule(line: nat): seq<Token>
  {
    [Group(Parenthesis, [], 1), Punct('=', 1), Punct('>', 1), Group(Brace, [Ident("include", line)], 1)]
  }

  lemma OneRuleScan(line: nat)
    ensures RulesOf(OneRule(line)) == Some([0])
    ensures RulesScan(OneRule(line), [0]) == NOTHING.(words := [Located(line, "include")])
  {
    var body := OneRule(line);
    var b := Bindings(body[0].stream);
    assert IsRuleAt(body, 0) && AfterRule(body, 0) == 4 && RulesFrom(body, 4) == Some([]);
    assert [0] + [] == [0];
    assert Walk(body[0].stream, b) == WalkFrom([], 0, b) == NOTHING;
    BareBody(line, b);
    assert RulesScan(body, [0][1..]) == NOTHING;
  }

  /** The definition `macro_rules! r#use { () => { include } }`. */
  function UseMacro(delimiter: Delimiter, line: nat): seq<Token>
  {
    [Ident("macro_rules", 1), Punct('!', 1), Ident("r#use", 1), Group(delimiter, OneRule(line), 1)]
  }

  lemma UseMacroScan(delimiter: Delimiter, line: nat, bound: Bound)
    ensures var scan := Walk(UseMacro(delimiter, line), bound);
            scan.calls == [] && scan.uses == [] && scan.unreadable == []
  {
    var tokens := UseMacro(delimiter, line);
    assert Plain("r#use") == "use" && Plain("macro_rules") == "macro_rules" && |"macro_rules"| == 11;
    OneRuleScan(line);
    assert IsDefinition(tokens, 0) && Next(tokens, 0) == 4;
    assert WalkAt(tokens, 0, bound) == DefinitionScan(Located(1, "macro_rules"), "use", OneRule(line));
    assert WalkFrom(tokens, 4, bound) == NOTHING;
    assert Walk(tokens, bound) == Plus(WalkAt(tokens, 0, bound), WalkFrom(tokens, 4, bound));
  }

  lemma UseMacroPassed(delimiter: Delimiter, line: nat)
    ensures IncludeNames(UseMacro(delimiter, line)) == []
  {
    var tokens := UseMacro(delimiter, line);
    assert Plain("r#use") == "use" && Plain("macro_rules") == "macro_rules";
    assert |"include"| == 7 && |"macro_rules"| == 11 && |"use"| == 3;
    assert UseItemEnd(tokens, 2) == Some(4) by { assert NextSemicolon(tokens, 4) == 4; }
    assert UseItemEnd(tokens, 0) == None && UseItemEnd(tokens, 1) == None;
    assert IncludeFrom(tokens, 4) == [];
    assert IncludeFrom(tokens, 2) == [] + IncludeFrom(tokens, 4);
    assert IncludeFrom(tokens, 1) == [] + IncludeFrom(tokens, 2);
    assert IncludeFrom(tokens, 0) == [] + IncludeFrom(tokens, 1);
  }

  /** A macro named `use` hides the bare `include` of its rule, and nothing of it is unreadable. */
  lemma HiddenByUse(delimiter: Delimiter, line: nat, bound: Bound)
    ensures var tokens := UseMacro(delimiter, line);
            && Occurs(tokens, line) && !Recorded(tokens, bound, line)
            && Walk(tokens, bound).unreadable == []
  {
    var tokens := UseMacro(delimiter, line);
    assert Plain("include") == "include";
    assert IncludeIn(OneRule(line)[3].stream[0], line);
    assert IncludeIn(OneRule(line)[3], line);
    assert IncludeIn(tokens[3], line);
    UseMacroScan(delimiter, line, bound);
    UseMacroPassed(delimiter, line);
  }
}
