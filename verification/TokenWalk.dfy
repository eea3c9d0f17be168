/** The walk over a token tree, and the include pass (xtask/src/tokens.rs), as
    functions of the tree. */
module TokenWalk {
  import opened Options
  import opened Tokens

  datatype Scan = Scan(attributes: seq<Meta>, unreadable: seq<Unread>, calls: seq<Located>,
                       definitions: seq<Located>, uses: seq<Located>, words: seq<Located>)

  const NOTHING := Scan([], [], [], [], [], [])

  function Plus(a: Scan, b: Scan): Scan
  {
    Scan(a.attributes + b.attributes, a.unreadable + b.unreadable, a.calls + b.calls,
         a.definitions + b.definitions, a.uses + b.uses, a.words + b.words)
  }

  // ----- one attribute

  /** The parts of a `cfg_attr` list after its predicate. */
  function Wrapped(group: Token): (parts: seq<seq<Token>>)
    requires group.Group?
    ensures forall i :: 0 <= i < |parts| ==> Size(parts[i]) < TokenSize(group)
  {
    PartsSize(group.stream);
    var parts := Parts(group.stream);
    if parts == [] then [] else parts[1..]
  }

  predicate IsCfgAttr(shape: Shape)
  {
    shape.MetaShape? && shape.path == ["cfg_attr"] && shape.list.Some? && shape.list.value.Group?
  }

  function MetaOf(line: nat, shape: Shape): Meta
    requires shape.MetaShape? && (shape.list.Some? ==> shape.list.value.Group?)
  {
    Meta(line, shape.path,
         if shape.list.None? then None else Some(ListItems(Parts(shape.list.value.stream))))
  }

  function ItemScan(tokens: seq<Token>, line: nat, bound: Bound): Scan
    decreases Size(tokens), 1, 0
  {
    var shape := ShapeOf(tokens);
    if shape.Binding? || (shape.Fragment? && shape.name in bound) then NOTHING
    else if IsCfgAttr(shape) then ItemScans(Wrapped(shape.list.value), line, bound, Size(tokens))
    else if shape.MetaShape? then NOTHING.(attributes := [MetaOf(line, shape)])
    else NOTHING.(unreadable := [UnreadAttribute(line, tokens)])
  }

  function ItemScans(parts: seq<seq<Token>>, line: nat, bound: Bound, size: nat): Scan
    requires forall i :: 0 <= i < |parts| ==> Size(parts[i]) < size
    decreases size, 0, |parts|
  {
    if parts == [] then NOTHING
    else Plus(ItemScan(parts[0], line, bound), ItemScans(parts[1..], line, bound, size))
  }

  // ----- the walk

  predicate IsHash(tokens: seq<Token>, i: nat) { IsPunct(tokens, i, '#') }

  /** Where the walk goes after the token at `i`. */
  function Next(tokens: seq<Token>, i: nat): (next: nat)
    requires i < |tokens|
    ensures i < next
  {
    if IsHash(tokens, i) && AttributeGroup(tokens, i).Some? then AttributeGroup(tokens, i).value + 1
    else if IsDefinition(tokens, i) then i + 4
    else i + 1
  }

  function IdentScan(tokens: seq<Token>, i: nat): Scan
    requires IsIdent(tokens, i)
  {
    var word, end := LocatedAt(tokens[i]), UseItemEnd(tokens, i);
    Scan([], [], if IsCall(tokens, i) then [word] else [], [],
         if end.Some? then Identifiers(tokens[i + 1..end.value]) else [], [word])
  }

  /** What the walk records at the token at `i`. */
  function WalkAt(tokens: seq<Token>, i: nat, bound: Bound): Scan
    requires i < |tokens|
    decreases Size(tokens), 2, |tokens| - i, 0
  {
    SizeAt(tokens, i);
    if IsHash(tokens, i) then
      var at := AttributeGroup(tokens, i);
      if at.None? then NOTHING
      else
        SizeAt(tokens, at.value);
        var content := tokens[at.value].stream;
        Plus(ItemScan(content, tokens[i].line, bound), Walk(content, bound))
    else if IsDefinition(tokens, i) then
      SizeAt(tokens, i + 3);
      DefinitionScan(LocatedAt(tokens[i]), Plain(tokens[i + 2].text), tokens[i + 3].stream)
    else if tokens[i].Ident? then IdentScan(tokens, i)
    else if tokens[i].Group? then Walk(tokens[i].stream, bound)
    else NOTHING
  }

  function DefinitionScan(word: Located, name: string, body: seq<Token>): Scan
    decreases Size(body), 4, 0, 0
  {
    var rules := RulesOf(body);
    var inner :=
      if rules.Some? then RulesScan(body, rules.value)
      else Plus(NOTHING.(unreadable := [UnreadRules(word.line, name)]), Walk(body, {}));
    Plus(Plus(NOTHING.(words := [word]), inner), NOTHING.(definitions := [Located(word.line, name)]))
  }

  /** Each rule's matcher and transcriber, under the fragments that the matcher binds. */
  function RulesScan(body: seq<Token>, rules: seq<nat>): Scan
    requires forall k :: 0 <= k < |rules| ==> IsRuleAt(body, rules[k])
    decreases Size(body), 3, |rules|, 0
  {
    if rules == [] then NOTHING
    else
      assert IsRuleAt(body, rules[0]);
      SizeAt(body, rules[0]);
      SizeAt(body, rules[0] + 3);
      var bound := Bindings(body[rules[0]].stream);
      Plus(Plus(Walk(body[rules[0]].stream, bound), Walk(body[rules[0] + 3].stream, bound)),
          RulesScan(body, rules[1..]))
  }

  function WalkFrom(tokens: seq<Token>, i: nat, bound: Bound): Scan
    decreases Size(tokens), 2, |tokens| - i, 1
  {
    if i >= |tokens| then NOTHING
    else Plus(WalkAt(tokens, i, bound), WalkFrom(tokens, Next(tokens, i), bound))
  }

  function Walk(tokens: seq<Token>, bound: Bound): Scan
    decreases Size(tokens), 3, 0, 0
  {
    WalkFrom(tokens, 0, bound)
  }

  // ----- the include pass

  function IncludeNext(tokens: seq<Token>, i: nat): (next: nat)
    requires i < |tokens|
    ensures i < next
  {
    var end := UseItemEnd(tokens, i);
    if end.Some? then end.value else i + 1
  }

  function IncludeAt(tokens: seq<Token>, i: nat): seq<nat>
    requires i < |tokens|
    decreases Size(tokens), |tokens| - i, 0
  {
    SizeAt(tokens, i);
    if UseItemEnd(tokens, i).Some? then []
    else if IsWord(tokens, i, "include") && !IsCall(tokens, i) then [tokens[i].line]
    else if tokens[i].Group? then IncludeNames(tokens[i].stream)
    else []
  }

  function IncludeFrom(tokens: seq<Token>, i: nat): seq<nat>
    decreases Size(tokens), |tokens| - i, 1
  {
    if i >= |tokens| then [] else IncludeAt(tokens, i) + IncludeFrom(tokens, IncludeNext(tokens, i))
  }

  /** The lines of the bare `include` names outside use items and literal calls. */
  function IncludeNames(tokens: seq<Token>): seq<nat>
    decreases Size(tokens), |tokens| + 1, 0
  {
    IncludeFrom(tokens, 0)
  }
}
