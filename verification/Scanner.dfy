/** The scanner as it runs (xtask/src/tokens.rs): index loops that push into one scan, proved to record
    what the walk functions say. */
module Scanner {
  import opened Options
  import opened Text
  import opened Tokens
  import opened TokenWalk
  import opened Orders
  import opened TokenRefusals
  import opened TokenCoverage
  import opened TokenRecords
  import opened TokenIncludes
  import opened TokenOrigins

  lemma PlusAssociates(a: Scan, b: Scan, c: Scan)
    ensures Plus(Plus(a, b), c) == Plus(a, Plus(b, c))
    ensures Plus(a, NOTHING) == a && Plus(NOTHING, a) == a
  {
  }

  // ----- lists and rules

  function PutFirst(token: Token, parts: seq<seq<Token>>): seq<seq<Token>>
    requires |parts| >= 1
  {
    [[token] + parts[0]] + parts[1..]
  }

  function PushLast(parts: seq<seq<Token>>, token: Token): seq<seq<Token>>
    requires |parts| >= 1
  {
    parts[|parts| - 1 := parts[|parts| - 1] + [token]]
  }

  lemma PutThenPush(first: Token, parts: seq<seq<Token>>, last: Token)
    requires |parts| >= 1
    ensures PushLast(PutFirst(first, parts), last) == PutFirst(first, PushLast(parts, last))
    ensures PushLast([[]] + parts, last) == [[]] + PushLast(parts, last)
    ensures PutFirst(first, parts) + [[]] == PutFirst(first, parts + [[]])
  {
    if |parts| == 1 {
      assert ([first] + parts[0]) + [last] == [first] + (parts[0] + [last]);
    }
  }

  predicate IsComma(token: Token) { token.Punct? && token.symbol == ',' }

  lemma CommaPartsFirst(first: Token, rest: seq<Token>)
    ensures CommaParts([first] + rest) ==
            if IsComma(first) then [[]] + CommaParts(rest) else PutFirst(first, CommaParts(rest))
  {
  }

  lemma SinglePart(token: Token)
    ensures CommaParts([token]) == if IsComma(token) then CommaParts([]) + [[]] else PushLast(CommaParts([]), token)
  {
    assert [token][1..] == [];
    assert CommaParts([]) == [[]];
    assert [token] + [] == [] + [token];
  }

  lemma {:induction false} CommaPartsAppend(tokens: seq<Token>, token: Token)
    ensures CommaParts(tokens + [token]) ==
            if IsComma(token) then CommaParts(tokens) + [[]] else PushLast(CommaParts(tokens), token)
  {
    if tokens == [] {
      SinglePart(token);
      assert tokens + [token] == [token];
    } else {
      var first, rest := tokens[0], tokens[1..];
      assert tokens == [first] + rest && tokens + [token] == [first] + (rest + [token]);
      CommaPartsAppend(rest, token);
      CommaPartsFirst(first, rest);
      CommaPartsFirst(first, rest + [token]);
      PutThenPush(first, CommaParts(rest), token);
      if IsComma(first) && IsComma(token) { Associate([[]], CommaParts(rest), [[]]); }
    }
  }

  lemma {:induction false} NonEmptyAppend(parts: seq<seq<Token>>, part: seq<Token>)
    ensures NonEmpty(parts + [part]) == NonEmpty(parts) + (if part == [] then [] else [part])
  {
    if parts == [] {
      assert parts + [part] == [part];
    } else {
      NonEmptyAppend(parts[1..], part);
      assert (parts + [part])[1..] == parts[1..] + [part];
    }
  }

  /** Cuts a list at its commas and drops the empty parts. */
  method SplitCommas(stream: seq<Token>) returns (kept: seq<seq<Token>>)
    ensures kept == Parts(stream)
  {
    var parts := AllParts(stream);
    kept := [];
    for i := 0 to |parts|
      invariant kept == NonEmpty(parts[..i])
    {
      NonEmptyAppend(parts[..i], parts[i]);
      assert parts[..i + 1] == parts[..i] + [parts[i]];
      if parts[i] != [] {
        kept := kept + [parts[i]];
      }
    }
    assert parts[..|parts|] == parts;
  }

  /** The parts between commas, empty ones too. */
  method AllParts(stream: seq<Token>) returns (parts: seq<seq<Token>>)
    ensures parts == CommaParts(stream)
  {
    parts := [[]];
    for i := 0 to |stream|
      invariant parts == CommaParts(stream[..i])
    {
      CommaPartsAppend(stream[..i], stream[i]);
      assert stream[..i + 1] == stream[..i] + [stream[i]];
      if IsComma(stream[i]) {
        parts := parts + [[]];
      } else {
        parts := PushLast(parts, stream[i]);
      }
    }
    assert stream[..|stream|] == stream;
  }

  /** Reads a definition's body as rules, each a matcher, `=>` and a transcriber. */
  method Rules(body: seq<Token>) returns (rules: Option<seq<nat>>)
    ensures rules == RulesOf(body)
  {
    var found: seq<nat> := [];
    var index := 0;
    FoundStart(RulesOf(body));
    while index < |body|
      invariant RulesOf(body) == Found(found, RulesFrom(body, index))
      decreases |body| - index
    {
      if !IsRuleAt(body, index) {
        return None;
      }
      FoundNext(found, body, index);
      found := found + [index];
      index := index + 4;
      if IsPunct(body, index, ';') {
        index := index + 1;
      }
    }
    assert found + [] == found;
    return Some(found);
  }

  /** The rules found and the rules still to come. */
  ghost function Found(found: seq<nat>, rest: Option<seq<nat>>): Option<seq<nat>>
  {
    if rest.None? then None else Some(found + rest.value)
  }

  lemma FoundStart(rest: Option<seq<nat>>)
    ensures Found([], rest) == rest
  {
    if rest.Some? { assert [] + rest.value == rest.value; }
  }

  lemma FoundNext(found: seq<nat>, body: seq<Token>, index: nat)
    requires index < |body| && IsRuleAt(body, index)
    ensures Found(found, RulesFrom(body, index)) == Found(found + [index], RulesFrom(body, AfterRule(body, index)))
  {
    var rest := RulesFrom(body, AfterRule(body, index));
    if rest.Some? {
      assert found + ([index] + rest.value) == (found + [index]) + rest.value;
    }
  }

  /** The path a token list starts with, and how many tokens it takes. */
  method Path(tokens: seq<Token>) returns (segments: seq<string>, used: nat)
    ensures (segments, used) == PathOf(tokens)
  {
    segments, used := [], 0;
    assert tokens[0..] == tokens;
    assert [] + PathOf(tokens).0 == PathOf(tokens).0;
    while IsIdent(tokens, used)
      invariant used <= |tokens|
      invariant var (more, taken) := PathOf(tokens[used..]);
                PathOf(tokens) == (segments + more, used + taken)
      decreases |tokens| - used
    {
      PathNext(tokens, used, segments);
      segments := segments + [Plain(tokens[used].text)];
      used := used + 1;
      if !(IsPunct(tokens, used, ':') && IsPunct(tokens, used + 1, ':') && IsIdent(tokens, used + 2)) {
        return;
      }
      used := used + 2;
    }
    assert segments + [] == segments;
  }

  lemma PathNext(tokens: seq<Token>, used: nat, segments: seq<string>)
    requires IsIdent(tokens, used)
    ensures var (more, taken) := PathOf(tokens[used..]);
            var found := segments + [Plain(tokens[used].text)];
            if IsPunct(tokens, used + 1, ':') && IsPunct(tokens, used + 2, ':') && IsIdent(tokens, used + 3) then
              var (rest, left) := PathOf(tokens[used + 3..]);
              segments + more == found + rest && taken == 3 + left
            else segments + more == found && taken == 1
  {
  }

  // ----- the refusals

  /** Every test at every token, group by group. */
  method RefusalsPass(tokens: seq<Token>) returns (refused: seq<Refused>)
    ensures refused == Refusals(tokens, |tokens|)
    decreases Size(tokens)
  {
    refused := [];
    for i := 0 to |tokens|
      invariant refused == Refusals(tokens, i)
    {
      SizeAt(tokens, i);
      var here := TestsAt(tokens, i);
      refused := refused + here;
      if tokens[i].Group? {
        var inner := RefusalsPass(tokens[i].stream);
        refused := refused + inner;
      }
    }
  }

  method TestsAt(tokens: seq<Token>, i: nat) returns (refused: seq<Refused>)
    requires i < |tokens|
    ensures refused == Here(tokens, i, |TESTS|)
  {
    refused := [];
    for k := 0 to |TESTS|
      invariant refused == Here(tokens, i, k)
    {
      if Trips(TESTS[k], tokens, i) {
        refused := refused + [Refused(tokens[i].line, RuleOf(TESTS[k]))];
      }
    }
  }

  // ----- the include pass

  method IncludePass(tokens: seq<Token>) returns (refused: seq<nat>)
    ensures refused == IncludeNames(tokens)
    decreases Size(tokens)
  {
    refused := [];
    var index := 0;
    while index < |tokens|
      invariant refused + IncludeFrom(tokens, index) == IncludeNames(tokens)
      decreases |tokens| - index
    {
      ghost var at, start := index, refused;
      IncludeAfter(refused, tokens, index);
      SizeAt(tokens, index);
      var end := UseItemEnd(tokens, index);
      if end.Some? {
        index := end.value;
      } else {
        if IsWord(tokens, index, "include") && !IsCall(tokens, index) {
          refused := refused + [tokens[index].line];
        } else if tokens[index].Group? {
          var inner := IncludePass(tokens[index].stream);
          refused := refused + inner;
        }
        index := index + 1;
      }
      assert refused == start + IncludeAt(tokens, at) && index == IncludeNext(tokens, at);
    }
  }

  lemma IncludeAfter(found: seq<nat>, tokens: seq<Token>, index: nat)
    requires index < |tokens|
    ensures found + IncludeFrom(tokens, index) ==
            (found + IncludeAt(tokens, index)) + IncludeFrom(tokens, IncludeNext(tokens, index))
  {
  }

  // ----- the walk

  lemma RuleNext(start: Scan, body: seq<Token>, rules: seq<nat>, k: nat)
    requires forall j :: 0 <= j < |rules| ==> IsRuleAt(body, rules[j])
    requires k < |rules|
    ensures IsRuleAt(body, rules[k])
    ensures var bound := Bindings(body[rules[k]].stream);
            Plus(start, RulesScan(body, rules[k..])) ==
            Plus(Plus(Plus(start, TokenWalk.Walk(body[rules[k]].stream, bound)),
                      TokenWalk.Walk(body[rules[k] + 3].stream, bound)), RulesScan(body, rules[k + 1..]))
  {
    assert IsRuleAt(body, rules[k]) && rules[k..][0] == rules[k] && rules[k..][1..] == rules[k + 1..];
    var bound := Bindings(body[rules[k]].stream);
    var matcher := TokenWalk.Walk(body[rules[k]].stream, bound);
    var transcriber := TokenWalk.Walk(body[rules[k] + 3].stream, bound);
    PlusAssociates(start, matcher, transcriber);
    PlusAssociates(start, Plus(matcher, transcriber), RulesScan(body, rules[k + 1..]));
  }

  function BodyScan(line: nat, name: string, body: seq<Token>): Scan
  {
    var rules := RulesOf(body);
    if rules.Some? then RulesScan(body, rules.value)
    else Plus(NOTHING.(unreadable := [UnreadRules(line, name)]), TokenWalk.Walk(body, {}))
  }

  lemma DefinitionParts(start: Scan, word: Located, name: string, body: seq<Token>)
    ensures Plus(Plus(Plus(start, NOTHING.(words := [word])), BodyScan(word.line, name, body)),
                 NOTHING.(definitions := [Located(word.line, name)])) ==
            Plus(start, DefinitionScan(word, name, body))
  {
    var inner, first, last :=
      BodyScan(word.line, name, body), NOTHING.(words := [word]), NOTHING.(definitions := [Located(word.line, name)]);
    assert DefinitionScan(word, name, body) == Plus(Plus(first, inner), last);
    PlusAssociates(start, first, inner);
    PlusAssociates(start, Plus(first, inner), last);
  }

  class Scanner {
    var attributes: seq<Meta>
    var unreadable: seq<Unread>
    var calls: seq<Located>
    var definitions: seq<Located>
    var uses: seq<Located>
    var words: seq<Located>

    function View(): Scan
      reads this
    {
      Scan(attributes, unreadable, calls, definitions, uses, words)
    }

    constructor ()
      ensures View() == NOTHING
    {
      attributes, unreadable, calls, definitions, uses, words := [], [], [], [], [], [];
    }

    /** Reads one attribute, `cfg_attr` unwrapped. */
    method Item(tokens: seq<Token>, line: nat, bound: Bound)
      modifies this
      ensures View() == Plus(old(View()), ItemScan(tokens, line, bound))
      decreases Size(tokens)
    {
      var shape := ShapeOf(tokens);
      PlusAssociates(View(), NOTHING, NOTHING);
      if shape.Binding? || (shape.Fragment? && shape.name in bound) {
        return;
      }
      if IsCfgAttr(shape) {
        var all := SplitCommas(shape.list.value.stream);
        var parts := if all == [] then [] else all[1..];
        assert parts == Wrapped(shape.list.value);
        for i := 0 to |parts|
          invariant Plus(View(), ItemScans(parts[i..], line, bound, Size(tokens))) ==
                    Plus(old(View()), ItemScan(tokens, line, bound))
        {
          PlusAssociates(View(), ItemScan(parts[i], line, bound), ItemScans(parts[i + 1..], line, bound, Size(tokens)));
          assert parts[i..][1..] == parts[i + 1..];
          Item(parts[i], line, bound);
        }
        PlusAssociates(View(), NOTHING, NOTHING);
      } else if shape.MetaShape? {
        var list: Option<seq<Tokens.Item>> := None;
        if shape.list.Some? {
          var parts := SplitCommas(shape.list.value.stream);
          list := Some(ListItems(parts));
        }
        attributes := attributes + [Meta(line, shape.path, list)];
      } else {
        unreadable := unreadable + [UnreadAttribute(line, tokens)];
      }
    }

    /** A `#`: reads and walks the attribute it opens, or steps over it. */
    method AttributeAt(tokens: seq<Token>, index: nat, bound: Bound) returns (next: nat)
      requires IsHash(tokens, index)
      modifies this
      ensures next == Next(tokens, index)
      ensures View() == Plus(old(View()), WalkAt(tokens, index, bound))
      decreases Size(tokens), 2
    {
      var at := AttributeGroup(tokens, index);
      PlusAssociates(View(), NOTHING, NOTHING);
      if at.None? {
        return index + 1;
      }
      SizeAt(tokens, at.value);
      var content := tokens[at.value].stream;
      PlusAssociates(View(), ItemScan(content, tokens[index].line, bound), TokenWalk.Walk(content, bound));
      Item(content, tokens[index].line, bound);
      Walk(content, bound);
      return at.value + 1;
    }

    /** A macro definition: walks each rule under the fragments its matcher binds. */
    method Definition(tokens: seq<Token>, index: nat)
      requires IsDefinition(tokens, index)
      modifies this
      ensures View() == Plus(old(View()), WalkAt(tokens, index, {}))
      decreases Size(tokens), 1
    {
      var word, name, body := LocatedAt(tokens[index]), Plain(tokens[index + 2].text), tokens[index + 3].stream;
      SizeAt(tokens, index + 3);
      ghost var start := View();
      words := words + [word];
      assert View() == Plus(start, NOTHING.(words := [word]));
      DefinitionBody(word.line, name, body);
      definitions := definitions + [Located(word.line, name)];
      DefinitionParts(start, word, name, body);
      assert WalkAt(tokens, index, {}) == DefinitionScan(word, name, body);
    }

    method DefinitionBody(line: nat, name: string, body: seq<Token>)
      modifies this
      ensures View() == Plus(old(View()), BodyScan(line, name, body))
      decreases Size(body), 5
    {
      var rules := Rules(body);
      if rules.Some? {
        WalkRules(body, rules.value);
      } else {
        ghost var start, unread := View(), NOTHING.(unreadable := [UnreadRules(line, name)]);
        unreadable := unreadable + [UnreadRules(line, name)];
        assert View() == Plus(start, unread);
        Walk(body, {});
        PlusAssociates(start, unread, TokenWalk.Walk(body, {}));
      }
    }

    method WalkRules(body: seq<Token>, rules: seq<nat>)
      requires forall k :: 0 <= k < |rules| ==> IsRuleAt(body, rules[k])
      modifies this
      ensures View() == Plus(old(View()), RulesScan(body, rules))
      decreases Size(body), 4
    {
      PlusAssociates(View(), NOTHING, NOTHING);
      for k := 0 to |rules|
        invariant Plus(View(), RulesScan(body, rules[k..])) == Plus(old(View()), RulesScan(body, rules))
      {
        RuleNext(View(), body, rules, k);
        WalkRule(body, rules[k]);
      }
      PlusAssociates(View(), NOTHING, NOTHING);
    }

    /** One rule: its matcher and its transcriber, under what the matcher binds. */
    method WalkRule(body: seq<Token>, at: nat)
      requires IsRuleAt(body, at)
      modifies this
      ensures var bound := Bindings(body[at].stream);
              View() == Plus(Plus(old(View()), TokenWalk.Walk(body[at].stream, bound)),
                             TokenWalk.Walk(body[at + 3].stream, bound))
      decreases Size(body), 3, 1
    {
      SizeAt(body, at);
      SizeAt(body, at + 3);
      var bound := Bindings(body[at].stream);
      Walk(body[at].stream, bound);
      Walk(body[at + 3].stream, bound);
    }

    /** An identifier: a macro definition, or a word that may call a macro or open a use item. */
    method IdentAt(tokens: seq<Token>, index: nat) returns (next: nat)
      requires IsIdent(tokens, index)
      modifies this
      ensures next == Next(tokens, index)
      ensures forall bound :: View() == Plus(old(View()), WalkAt(tokens, index, bound))
      decreases Size(tokens), 2
    {
      if IsDefinition(tokens, index) {
        Definition(tokens, index);
        assert forall bound :: WalkAt(tokens, index, bound) == WalkAt(tokens, index, {});
        return index + 4;
      }
      var word := LocatedAt(tokens[index]);
      if IsCall(tokens, index) {
        calls := calls + [word];
      }
      var end := UseItemEnd(tokens, index);
      if end.Some? {
        uses := uses + Identifiers(tokens[index + 1..end.value]);
      }
      words := words + [word];
      assert View() == Plus(old(View()), IdentScan(tokens, index));
      return index + 1;
    }

    /** Walks a stream, each group inside it included. */
    method Walk(tokens: seq<Token>, bound: Bound)
      modifies this
      ensures View() == Plus(old(View()), TokenWalk.Walk(tokens, bound))
      decreases Size(tokens), 3
    {
      PlusAssociates(View(), NOTHING, NOTHING);
      var index := 0;
      while index < |tokens|
        invariant Plus(View(), WalkFrom(tokens, index, bound)) == Plus(old(View()), TokenWalk.Walk(tokens, bound))
        decreases |tokens| - index
      {
        ghost var at, start := index, View();
        SizeAt(tokens, index);
        PlusAssociates(start, WalkAt(tokens, at, bound), WalkFrom(tokens, Next(tokens, at), bound));
        if IsHash(tokens, index) {
          index := AttributeAt(tokens, index, bound);
        } else if tokens[index].Ident? {
          index := IdentAt(tokens, index);
        } else {
          if tokens[index].Group? {
            Walk(tokens[index].stream, bound);
          } else {
            PlusAssociates(start, NOTHING, NOTHING);
          }
          index := index + 1;
        }
        assert index == Next(tokens, at) && View() == Plus(start, WalkAt(tokens, at, bound));
      }
      PlusAssociates(View(), NOTHING, NOTHING);
    }
  }

  // ----- the whole scan

  predicate LineLe(a: Refused, b: Refused) { a.line <= b.line }

  function IncludesAt(lines: seq<nat>): seq<Refused>
  {
    seq(|lines|, i requires 0 <= i < |lines| => Refused(lines[i], IncludeName))
  }

  /** All refusals, stably by line. */
  function Sorted(tokens: seq<Token>): seq<Refused>
  {
    SortBy(Refusals(tokens, |tokens|) + IncludesAt(IncludeNames(tokens)), LineLe)
  }

  lemma IncludesHave(lines: seq<nat>, refused: Refused)
    ensures refused in IncludesAt(lines) <==> refused.rule == IncludeName && refused.line in lines
  {
    if refused.rule == IncludeName && refused.line in lines {
      var i :| 0 <= i < |lines| && lines[i] == refused.line;
      assert IncludesAt(lines)[i] == refused;
    }
  }

  lemma SortedHas(tokens: seq<Token>, refused: Refused)
    ensures refused in Sorted(tokens) <==>
            if refused.rule == IncludeName then refused.line in IncludeNames(tokens)
            else RefusedPlaced(tokens, refused)
  {
    var tests, includes := Refusals(tokens, |tokens|), IncludesAt(IncludeNames(tokens));
    SortByMembers(tests + includes, LineLe);
    IncludesHave(IncludeNames(tokens), refused);
    RefusalsExactly(tokens, refused);
    if RefusedPlaced(tokens, refused) { NoIncludeName(tokens, refused); }
  }

  /** The walk records exactly the attributes and unreadable entries of the hashes that stand in the tree,
      under the fragments in force at each, and exactly the words, calls, use names and definitions that
      stand in it; and every hash is read or refused. */
  ghost predicate WalkIsExact(tokens: seq<Token>, scan: Scan)
  {
    && (forall path: seq<nat>, h: nat :: IsPath(tokens, path) && IsHash(StreamAt(tokens, path), h) ==>
          HashSeen(tokens, {}, path, h))
    && (forall meta :: meta in scan.attributes <==> MetaPlaced(tokens, {}, meta))
    && (forall unread :: unread in scan.unreadable <==> UnreadPlaced(tokens, {}, unread))
    && (forall record :: Holds(scan, record) <==> Stands(tokens, record))
  }

  /** The forms refused are exactly those that a test holds of at some place. */
  ghost predicate RefusalsAreExact(tokens: seq<Token>, refused: seq<Refused>)
  {
    forall one: Refused :: one.rule != IncludeName ==> (one in refused <==> RefusedPlaced(tokens, one))
  }

  /** The `include` lines are exactly those of the literal calls, the use items and the bare names: where
      no macro is named `use`, of all. */
  ghost predicate IncludesAreExact(tokens: seq<Token>, scan: Scan, refused: seq<Refused>)
  {
    && (forall line: nat :: Named(scan, line) || Refused(line, IncludeName) in refused <==>
          Called(tokens, line) || Used(tokens, line) || Bare(tokens, line))
    && (NoMacroNamedUse(tokens) ==>
          forall line: nat :: Occurs(tokens, line) <==> (Named(scan, line) || Refused(line, IncludeName) in refused))
  }

  /** The whole scan: the walk with nothing bound, then the refusals and the include names by line. */
  method ScanTokens(tokens: seq<Token>) returns (scan: Scan, refused: seq<Refused>)
    ensures scan == TokenWalk.Walk(tokens, {}) && refused == Sorted(tokens)
    ensures SortedBy(refused, LineLe)
    ensures WalkIsExact(tokens, scan)
    ensures RefusalsAreExact(tokens, refused)
    ensures IncludesAreExact(tokens, scan, refused)
  {
    scan := WalkAll(tokens);
    refused := RefusedByLine(tokens);
    WalkSays(tokens);
    RefusalsSay(tokens);
    IncludesSay(tokens);
  }

  method WalkAll(tokens: seq<Token>) returns (scan: Scan)
    ensures scan == TokenWalk.Walk(tokens, {})
  {
    var scanner := new Scanner();
    scanner.Walk(tokens, {});
    scan := scanner.View();
    PlusAssociates(scan, TokenWalk.Walk(tokens, {}), NOTHING);
  }

  method RefusedByLine(tokens: seq<Token>) returns (refused: seq<Refused>)
    ensures refused == Sorted(tokens) && SortedBy(refused, LineLe)
  {
    var refusals := RefusalsPass(tokens);
    var includeNames := IncludePass(tokens);
    refused := SortBy(refusals + IncludesAt(includeNames), LineLe);
    SortBySorted(refusals + IncludesAt(includeNames), LineLe);
  }

  lemma WalkSays(tokens: seq<Token>)
    ensures WalkIsExact(tokens, TokenWalk.Walk(tokens, {}))
  {
    forall path: seq<nat>, h: nat | IsPath(tokens, path) && IsHash(StreamAt(tokens, path), h)
      ensures HashSeen(tokens, {}, path, h)
    {
      EveryHashIsSeen(tokens, {}, path, h);
    }
    forall meta ensures meta in TokenWalk.Walk(tokens, {}).attributes <==> MetaPlaced(tokens, {}, meta) {
      AttributesExactly(tokens, {}, meta);
    }
    forall unread ensures unread in TokenWalk.Walk(tokens, {}).unreadable <==> UnreadPlaced(tokens, {}, unread) {
      UnreadsExactly(tokens, {}, unread);
    }
    forall record ensures Holds(TokenWalk.Walk(tokens, {}), record) <==> Stands(tokens, record) {
      RecordsExactly(tokens, {}, record);
    }
  }

  lemma RefusalsSay(tokens: seq<Token>)
    ensures RefusalsAreExact(tokens, Sorted(tokens))
  {
    forall one: Refused | one.rule != IncludeName ensures one in Sorted(tokens) <==> RefusedPlaced(tokens, one) {
      SortedHas(tokens, one);
    }
  }

  lemma IncludesSay(tokens: seq<Token>)
    ensures IncludesAreExact(tokens, TokenWalk.Walk(tokens, {}), Sorted(tokens))
  {
    var scan, refused := TokenWalk.Walk(tokens, {}), Sorted(tokens);
    forall line: nat
      ensures Named(scan, line) || Refused(line, IncludeName) in refused <==>
                Called(tokens, line) || Used(tokens, line) || Bare(tokens, line)
      ensures NoMacroNamedUse(tokens) ==>
                (Occurs(tokens, line) <==> (Named(scan, line) || Refused(line, IncludeName) in refused))
    {
      SortedHas(tokens, Refused(line, IncludeName));
      RecordedExactly(tokens, {}, line);
      if NoMacroNamedUse(tokens) { EveryIncludeIsRecorded(tokens, {}, line); }
    }
  }
}
