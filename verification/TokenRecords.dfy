/** The words, macro calls, use names and macro definitions that the walk records (xtask/src/tokens.rs):
    exactly those that stand in the tree, at every depth. */
module TokenRecords {
  import opened Options
  import opened Tokens
  import opened TokenWalk
  import opened TokenCoverage

  datatype Record =
    | WordRecord(at: Located)
    | CallRecord(at: Located)
    | UseRecord(at: Located)
    | DefinitionRecord(at: Located)

  predicate Holds(scan: Scan, record: Record)
  {
    match record
    case WordRecord(at) => at in scan.words
    case CallRecord(at) => at in scan.calls
    case UseRecord(at) => at in scan.uses
    case DefinitionRecord(at) => at in scan.definitions
  }

  // ----- what stands in one stream

  /** `p` lies after the word `use` at `u`, up to the next `;`. */
  predicate InSpan(tokens: seq<Token>, u: nat, p: nat)
  {
    u < p && UseItemEnd(tokens, u).Some? && p < UseItemEnd(tokens, u).value
  }

  predicate NamesAMacro(tokens: seq<Token>, u: nat)
  {
    u >= 2 && IsDefinition(tokens, u - 2)
  }

  /** The identifier at `i` spells `at`. */
  ghost predicate Spelled(tokens: seq<Token>, i: nat, at: Located)
  {
    i < |tokens| && tokens[i].Ident? && at == Located(tokens[i].line, Plain(tokens[i].text))
  }

  /** What the token at `i` gives: an identifier that is no macro's own name is a word, before a `!` and a
      group it is a call, the identifiers in the span of such a `use` are use names, and the name of a macro
      is a definition on the line of its `macro_rules`. */
  ghost predicate Gives(tokens: seq<Token>, i: nat, record: Record)
  {
    match record
    case WordRecord(at) => Spelled(tokens, i, at) && !NamesAMacro(tokens, i)
    case CallRecord(at) => Spelled(tokens, i, at) && IsCall(tokens, i)
    case UseRecord(at) =>
      i < |tokens| && at in IdentifiersOf(tokens[i]) && exists u: nat :: InSpan(tokens, u, i) && !NamesAMacro(tokens, u)
    case DefinitionRecord(at) =>
      IsDefinition(tokens, i) && at == Located(tokens[i].line, Plain(tokens[i + 2].text))
  }

  ghost predicate Stands(tokens: seq<Token>, record: Record)
  {
    exists path: seq<nat>, i: nat :: IsPath(tokens, path) && Gives(StreamAt(tokens, path), i, record)
  }

  lemma GivenDown(tokens: seq<Token>, i: nat, record: Record)
    requires IsGroup(tokens, i) && Stands(tokens[i].stream, record)
    ensures Stands(tokens, record)
  {
    var stream := tokens[i].stream;
    var path: seq<nat>, k: nat :| IsPath(stream, path) && Gives(StreamAt(stream, path), k, record);
    PathDown(tokens, i, path);
  }

  lemma GivenAtTop(tokens: seq<Token>, i: nat, record: Record)
    requires Gives(tokens, i, record)
    ensures Stands(tokens, record)
  {
    assert IsPath(tokens, []) && StreamAt(tokens, []) == tokens;
  }

  lemma {:induction false} IdentifiersAt(tokens: seq<Token>, i: nat, at: Located)
    requires i < |tokens| && at in IdentifiersOf(tokens[i])
    ensures at in Identifiers(tokens)
  {
    if i == 0 {
    } else {
      IdentifiersAt(tokens[1..], i - 1, at);
    }
  }

  lemma {:induction false} IdentifiersFrom(tokens: seq<Token>, at: Located) returns (i: nat)
    requires at in Identifiers(tokens)
    ensures i < |tokens| && at in IdentifiersOf(tokens[i])
  {
    if at in IdentifiersOf(tokens[0]) {
      i := 0;
    } else {
      i := IdentifiersFrom(tokens[1..], at);
      i := i + 1;
    }
  }

  // ----- the walk records what stands in the tree

  /** An identifier is visited by the walk unless it is a macro's own name. */
  lemma IdentIsVisited(tokens: seq<Token>, i: nat)
    requires IsIdent(tokens, i) && !NamesAMacro(tokens, i)
    ensures Visits(tokens, 0, i)
  {
    if !Visits(tokens, 0, i) {
      var d := SkippedBy(tokens, 0, i);
      SkippedKinds(tokens, d, i);
    }
  }

  lemma IdentIsScanned(tokens: seq<Token>, bound: Bound, i: nat)
    requires IsIdent(tokens, i) && !NamesAMacro(tokens, i) && !IsDefinition(tokens, i)
    ensures Sub(IdentScan(tokens, i), Walk(tokens, bound))
  {
    IdentIsVisited(tokens, i);
    VisitedIsRecorded(tokens, 0, i, bound);
    assert WalkAt(tokens, i, bound) == IdentScan(tokens, i);
  }

  lemma DefinitionIsScanned(tokens: seq<Token>, bound: Bound, d: nat)
    requires IsDefinition(tokens, d)
    ensures Holds(Walk(tokens, bound), WordRecord(LocatedAt(tokens[d])))
    ensures Holds(Walk(tokens, bound), DefinitionRecord(Located(tokens[d].line, Plain(tokens[d + 2].text))))
  {
    var word, name := LocatedAt(tokens[d]), Plain(tokens[d + 2].text);
    DefinitionIsVisited(tokens, d);
    VisitedIsRecorded(tokens, 0, d, bound);
    assert WalkAt(tokens, d, bound) == DefinitionScan(word, name, tokens[d + 3].stream);
    DefinitionRecords(word, name, tokens[d + 3].stream);
  }

  lemma DefinitionRecords(word: Located, name: string, body: seq<Token>)
    ensures var scan := DefinitionScan(word, name, body);
            word in scan.words && Located(word.line, name) in scan.definitions
  {
  }

  /** The identifier that a record stands at, or the `use` before it. */
  lemma GivenHere(tokens: seq<Token>, i: nat, record: Record) returns (k: nat)
    requires Gives(tokens, i, record)
    ensures IsIdent(tokens, k) && forall bound: Bound :: Holds(Walk(tokens, bound), record)
  {
    k := i;
    if record.UseRecord? {
      k :| InSpan(tokens, k, i) && !NamesAMacro(tokens, k);
      var item := tokens[k + 1..UseItemEnd(tokens, k).value];
      assert item[i - k - 1] == tokens[i];
      IdentifiersAt(item, i - k - 1, record.at);
    }
    forall bound: Bound ensures Holds(Walk(tokens, bound), record) {
      if IsDefinition(tokens, k) {
        DefinitionIsScanned(tokens, bound, k);
      } else {
        IdentIsScanned(tokens, bound, k);
      }
    }
  }

  /** A stream with an identifier is no list of rules, so the walk reads it. */
  lemma HeldInPlace(tokens: seq<Token>, bound: Bound, path: seq<nat>, k: nat, record: Record)
    requires IsPath(tokens, path) && IsIdent(StreamAt(tokens, path), k)
    requires forall b: Bound :: Holds(Walk(StreamAt(tokens, path), b), record)
    ensures Holds(Walk(tokens, bound), record)
  {
    PlaceIsWalked(tokens, bound, path);
    if BoundAt(tokens, bound, path).None? {
      RulesHold(StreamAt(tokens, path), 0, k);
    }
  }

  lemma GivenIsHeld(tokens: seq<Token>, bound: Bound, record: Record)
    requires Stands(tokens, record)
    ensures Holds(Walk(tokens, bound), record)
  {
    var path: seq<nat>, i: nat :| IsPath(tokens, path) && Gives(StreamAt(tokens, path), i, record);
    var k := GivenHere(StreamAt(tokens, path), i, record);
    HeldInPlace(tokens, bound, path, k, record);
  }

  // ----- and nothing else

  /** The walk never stands on a macro's own name. */
  lemma NoVisitedName(tokens: seq<Token>, i: nat)
    requires Visits(tokens, 0, i)
    ensures !NamesAMacro(tokens, i)
  {
    if NamesAMacro(tokens, i) {
      DefinitionIsVisited(tokens, i - 2);
      VisitsApart(tokens, 0, i - 2, i);
    }
  }

  /** Reading an attribute gives none of the four. */
  lemma {:induction false} ItemHoldsNothing(tokens: seq<Token>, line: nat, bound: Bound, record: Record)
    ensures !Holds(ItemScan(tokens, line, bound), record)
    decreases Size(tokens), 1, 0
  {
    var shape := ShapeOf(tokens);
    if IsCfgAttr(shape) { ItemsHoldNothing(Wrapped(shape.list.value), line, bound, Size(tokens), record); }
  }

  lemma {:induction false} ItemsHoldNothing(parts: seq<seq<Token>>, line: nat, bound: Bound, size: nat, record: Record)
    requires forall i :: 0 <= i < |parts| ==> Size(parts[i]) < size
    ensures !Holds(ItemScans(parts, line, bound, size), record)
    decreases size, 0, |parts|
  {
    if parts == [] {
    } else {
      ItemHoldsNothing(parts[0], line, bound, record);
      ItemsHoldNothing(parts[1..], line, bound, size, record);
    }
  }

  lemma {:induction false} HeldHere(tokens: seq<Token>, i: nat, bound: Bound, record: Record)
    requires i < |tokens| && Visits(tokens, 0, i) && Holds(WalkAt(tokens, i, bound), record)
    ensures Stands(tokens, record)
    decreases Size(tokens), 2, |tokens| - i, 0
  {
    SizeAt(tokens, i);
    NoVisitedName(tokens, i);
    if IsHash(tokens, i) {
      var at := AttributeGroup(tokens, i).value;
      SizeAt(tokens, at);
      ItemHoldsNothing(tokens[at].stream, tokens[i].line, bound, record);
      HeldByWalk(tokens[at].stream, bound, record);
      GivenDown(tokens, at, record);
    } else if IsDefinition(tokens, i) {
      SizeAt(tokens, i + 3);
      HeldByDefinition(tokens, i, record);
    } else if tokens[i].Ident? {
      HeldByIdent(tokens, i, record);
    } else {
      HeldByWalk(tokens[i].stream, bound, record);
      GivenDown(tokens, i, record);
    }
  }

  lemma HeldByIdent(tokens: seq<Token>, i: nat, record: Record)
    requires IsIdent(tokens, i) && !NamesAMacro(tokens, i) && Holds(IdentScan(tokens, i), record)
    ensures Stands(tokens, record)
  {
    if record.UseRecord? {
      HeldByUse(tokens, i, record.at);
    } else {
      GivenAtTop(tokens, i, record);
    }
  }

  lemma HeldByUse(tokens: seq<Token>, i: nat, at: Located)
    requires !NamesAMacro(tokens, i) && UseItemEnd(tokens, i).Some?
    requires at in Identifiers(tokens[i + 1..UseItemEnd(tokens, i).value])
    ensures Stands(tokens, UseRecord(at))
  {
    var n := IdentifiersFrom(tokens[i + 1..UseItemEnd(tokens, i).value], at);
    assert InSpan(tokens, i, i + 1 + n);
    GivenAtTop(tokens, i + 1 + n, UseRecord(at));
  }

  lemma {:induction false} HeldByDefinition(tokens: seq<Token>, d: nat, record: Record)
    requires IsDefinition(tokens, d) && !NamesAMacro(tokens, d) && TokenSize(tokens[d + 3]) <= Size(tokens)
    requires Holds(DefinitionScan(LocatedAt(tokens[d]), Plain(tokens[d + 2].text), tokens[d + 3].stream), record)
    ensures Stands(tokens, record)
    decreases Size(tokens), 1, 0, 0
  {
    var body := tokens[d + 3].stream;
    var rules := RulesOf(body);
    if Gives(tokens, d, record) {
      GivenAtTop(tokens, d, record);
    } else if rules.Some? {
      HeldByRules(body, rules.value, record);
      GivenDown(tokens, d + 3, record);
    } else {
      HeldByWalk(body, {}, record);
      GivenDown(tokens, d + 3, record);
    }
  }

  lemma {:induction false} HeldByRules(body: seq<Token>, rules: seq<nat>, record: Record)
    requires forall k :: 0 <= k < |rules| ==> IsRuleAt(body, rules[k])
    requires Holds(RulesScan(body, rules), record)
    ensures Stands(body, record)
    decreases Size(body), 3, |rules|, 0
  {
    assert IsRuleAt(body, rules[0]);
    SizeAt(body, rules[0]);
    SizeAt(body, rules[0] + 3);
    var matcher, transcriber := body[rules[0]].stream, body[rules[0] + 3].stream;
    var bound := Bindings(matcher);
    if Holds(Walk(matcher, bound), record) {
      HeldByWalk(matcher, bound, record);
      GivenDown(body, rules[0], record);
    } else if Holds(Walk(transcriber, bound), record) {
      HeldByWalk(transcriber, bound, record);
      GivenDown(body, rules[0] + 3, record);
    } else {
      HeldByRules(body, rules[1..], record);
    }
  }

  lemma {:induction false} HeldFrom(tokens: seq<Token>, i: nat, bound: Bound, record: Record)
    requires (i < |tokens| ==> Visits(tokens, 0, i)) && Holds(WalkFrom(tokens, i, bound), record)
    ensures Stands(tokens, record)
    decreases Size(tokens), 2, |tokens| - i, 1
  {
    if Holds(WalkAt(tokens, i, bound), record) {
      HeldHere(tokens, i, bound, record);
    } else {
      if Next(tokens, i) < |tokens| { VisitsNext(tokens, 0, i); }
      HeldFrom(tokens, Next(tokens, i), bound, record);
    }
  }

  lemma {:induction false} HeldByWalk(tokens: seq<Token>, bound: Bound, record: Record)
    requires Holds(Walk(tokens, bound), record)
    ensures Stands(tokens, record)
    decreases Size(tokens), 3, 0, 0
  {
    assert Walk(tokens, bound) == WalkFrom(tokens, 0, bound);
    HeldFrom(tokens, 0, bound, record);
  }

  /** Under any fragments, the walk records exactly what stands at some place of the tree. */
  lemma RecordsExactly(tokens: seq<Token>, bound: Bound, record: Record)
    ensures Holds(Walk(tokens, bound), record) <==> Stands(tokens, record)
  {
    if Holds(Walk(tokens, bound), record) {
      HeldByWalk(tokens, bound, record);
    } else if Stands(tokens, record) {
      GivenIsHeld(tokens, bound, record);
    }
  }
}
