/** Where every attribute and unreadable entry of the walk comes from (xtask/src/tokens.rs): the converse
    of what it covers, so that both together say exactly what is recorded. */
module TokenOrigins {
  import opened Options
  import opened Tokens
  import opened TokenWalk
  import opened TokenCoverage

  // ----- the leaves of one attribute

  /** Some leaf of the attribute, `cfg_attr` unwrapped, reads as `meta`. */
  ghost predicate MetaLeaf(tokens: seq<Token>, line: nat, meta: Meta)
    decreases Size(tokens)
  {
    var shape := ShapeOf(tokens);
    if IsCfgAttr(shape) then
      var parts := Wrapped(shape.list.value);
      exists i :: 0 <= i < |parts| && Size(parts[i]) < Size(tokens) && MetaLeaf(parts[i], line, meta)
    else shape.MetaShape? && meta == MetaOf(line, shape)
  }

  /** Some leaf of the attribute cannot be read, a fragment that is not bound included. */
  ghost predicate UnreadLeaf(tokens: seq<Token>, line: nat, bound: Bound, unread: Unread)
    decreases Size(tokens)
  {
    var shape := ShapeOf(tokens);
    if IsCfgAttr(shape) then
      var parts := Wrapped(shape.list.value);
      exists i :: 0 <= i < |parts| && Size(parts[i]) < Size(tokens) && UnreadLeaf(parts[i], line, bound, unread)
    else
      && (shape.Unreadable? || (shape.Fragment? && shape.name !in bound))
      && unread == UnreadAttribute(line, tokens)
  }

  lemma {:induction false} PartOfScans(parts: seq<seq<Token>>, line: nat, bound: Bound, size: nat, meta: Meta)
    returns (i: nat)
    requires forall k :: 0 <= k < |parts| ==> Size(parts[k]) < size
    requires meta in ItemScans(parts, line, bound, size).attributes
    ensures i < |parts| && meta in ItemScan(parts[i], line, bound).attributes
  {
    if meta in ItemScan(parts[0], line, bound).attributes {
      i := 0;
    } else {
      i := PartOfScans(parts[1..], line, bound, size, meta);
      i := i + 1;
    }
  }

  lemma {:induction false} UnreadPart(parts: seq<seq<Token>>, line: nat, bound: Bound, size: nat, unread: Unread)
    returns (i: nat)
    requires forall k :: 0 <= k < |parts| ==> Size(parts[k]) < size
    requires unread in ItemScans(parts, line, bound, size).unreadable
    ensures i < |parts| && unread in ItemScan(parts[i], line, bound).unreadable
  {
    if unread in ItemScan(parts[0], line, bound).unreadable {
      i := 0;
    } else {
      i := UnreadPart(parts[1..], line, bound, size, unread);
      i := i + 1;
    }
  }

  /** The attribute reader records exactly the leaves that read as an attribute. */
  lemma {:induction false} MetasOfItem(tokens: seq<Token>, line: nat, bound: Bound, meta: Meta)
    ensures meta in ItemScan(tokens, line, bound).attributes <==> MetaLeaf(tokens, line, meta)
    decreases Size(tokens)
  {
    var shape := ShapeOf(tokens);
    if IsCfgAttr(shape) {
      var parts := Wrapped(shape.list.value);
      if meta in ItemScan(tokens, line, bound).attributes {
        var i := PartOfScans(parts, line, bound, Size(tokens), meta);
        MetasOfItem(parts[i], line, bound, meta);
      } else if MetaLeaf(tokens, line, meta) {
        var i :| 0 <= i < |parts| && Size(parts[i]) < Size(tokens) && MetaLeaf(parts[i], line, meta);
        MetasOfItem(parts[i], line, bound, meta);
        PartIsScanned(parts, line, bound, Size(tokens), i);
      }
    }
  }

  /** And, as unreadable, exactly the leaves that do not. */
  lemma {:induction false} UnreadsOfItem(tokens: seq<Token>, line: nat, bound: Bound, unread: Unread)
    ensures unread in ItemScan(tokens, line, bound).unreadable <==> UnreadLeaf(tokens, line, bound, unread)
    decreases Size(tokens)
  {
    var shape := ShapeOf(tokens);
    if IsCfgAttr(shape) {
      var parts := Wrapped(shape.list.value);
      if unread in ItemScan(tokens, line, bound).unreadable {
        var i := UnreadPart(parts, line, bound, Size(tokens), unread);
        UnreadsOfItem(parts[i], line, bound, unread);
      } else if UnreadLeaf(tokens, line, bound, unread) {
        var i :| 0 <= i < |parts| && Size(parts[i]) < Size(tokens) && UnreadLeaf(parts[i], line, bound, unread);
        UnreadsOfItem(parts[i], line, bound, unread);
        PartIsScanned(parts, line, bound, Size(tokens), i);
      }
    }
  }

  // ----- places that record

  /** The hash at `h` in the stream at `path` opens the attribute at `p`, in a stream that is read under `b`. */
  ghost predicate ReadAt(tokens: seq<Token>, bound: Bound, path: seq<nat>, h: nat, p: nat, b: Bound)
  {
    && IsPath(tokens, path) && BoundAt(tokens, bound, path) == Some(b)
    && IsHash(StreamAt(tokens, path), h) && OpensAt(StreamAt(tokens, path), h, p)
  }

  ghost function ContentAt(tokens: seq<Token>, bound: Bound, path: seq<nat>, h: nat, p: nat, b: Bound): seq<Token>
    requires ReadAt(tokens, bound, path, h, p, b)
  {
    StreamAt(tokens, path)[p].stream
  }

  ghost function LineAt(tokens: seq<Token>, bound: Bound, path: seq<nat>, h: nat, p: nat, b: Bound): nat
    requires ReadAt(tokens, bound, path, h, p, b)
  {
    StreamAt(tokens, path)[h].line
  }

  /** The definition at `d` in the stream at `path` has a body that is no list of rules. */
  ghost predicate UnreadRulesAt(tokens: seq<Token>, bound: Bound, path: seq<nat>, d: nat, unread: Unread)
  {
    && IsPath(tokens, path) && BoundAt(tokens, bound, path).Some? && IsDefinition(StreamAt(tokens, path), d)
    && var inner := StreamAt(tokens, path);
       RulesOf(inner[d + 3].stream).None? && unread == UnreadRules(inner[d].line, Plain(inner[d + 2].text))
  }

  ghost predicate MetaPlaced(tokens: seq<Token>, bound: Bound, meta: Meta)
  {
    exists path: seq<nat>, h: nat, p: nat, b: Bound ::
      ReadAt(tokens, bound, path, h, p, b) &&
      MetaLeaf(ContentAt(tokens, bound, path, h, p, b), LineAt(tokens, bound, path, h, p, b), meta)
  }

  ghost predicate UnreadPlaced(tokens: seq<Token>, bound: Bound, unread: Unread)
  {
    || (exists path: seq<nat>, h: nat, p: nat, b: Bound ::
          ReadAt(tokens, bound, path, h, p, b) &&
          UnreadLeaf(ContentAt(tokens, bound, path, h, p, b), LineAt(tokens, bound, path, h, p, b), b, unread))
    || (exists path: seq<nat>, d: nat :: UnreadRulesAt(tokens, bound, path, d, unread))
  }

  /** Every attribute and unreadable entry of `scan` has its place in `tokens`. */
  ghost predicate Placed(tokens: seq<Token>, bound: Bound, scan: Scan)
  {
    && (forall meta :: meta in scan.attributes ==> MetaPlaced(tokens, bound, meta))
    && (forall unread :: unread in scan.unreadable ==> UnreadPlaced(tokens, bound, unread))
  }

  lemma PlacedPlus(tokens: seq<Token>, bound: Bound, a: Scan, b: Scan)
    requires Placed(tokens, bound, a) && Placed(tokens, bound, b)
    ensures Placed(tokens, bound, Plus(a, b))
  {
  }

  /** The places of `stream` under `under` are, behind `front`, places of `tokens`. */
  ghost predicate Leads(tokens: seq<Token>, bound: Bound, front: seq<nat>, stream: seq<Token>, under: Bound)
  {
    forall path :: IsPath(stream, path) ==>
      && IsPath(tokens, front + path) && StreamAt(tokens, front + path) == StreamAt(stream, path)
      && BoundAt(tokens, bound, front + path) == BoundAt(stream, under, path)
  }

  lemma MetaDown(tokens: seq<Token>, bound: Bound, front: seq<nat>, stream: seq<Token>, under: Bound, meta: Meta)
    requires Leads(tokens, bound, front, stream, under) && MetaPlaced(stream, under, meta)
    ensures MetaPlaced(tokens, bound, meta)
  {
    var path: seq<nat>, h: nat, p: nat, b: Bound :|
      ReadAt(stream, under, path, h, p, b) &&
      MetaLeaf(ContentAt(stream, under, path, h, p, b), LineAt(stream, under, path, h, p, b), meta);
    assert ReadAt(tokens, bound, front + path, h, p, b);
  }

  lemma UnreadDown(tokens: seq<Token>, bound: Bound, front: seq<nat>, stream: seq<Token>, under: Bound, unread: Unread)
    requires Leads(tokens, bound, front, stream, under) && UnreadPlaced(stream, under, unread)
    ensures UnreadPlaced(tokens, bound, unread)
  {
    if path: seq<nat>, h: nat, p: nat, b: Bound :|
      ReadAt(stream, under, path, h, p, b) &&
      UnreadLeaf(ContentAt(stream, under, path, h, p, b), LineAt(stream, under, path, h, p, b), b, unread)
    {
      assert ReadAt(tokens, bound, front + path, h, p, b);
    } else {
      var path: seq<nat>, d: nat :| UnreadRulesAt(stream, under, path, d, unread);
      assert UnreadRulesAt(tokens, bound, front + path, d, unread);
    }
  }

  lemma PlacedDown(tokens: seq<Token>, bound: Bound, front: seq<nat>, stream: seq<Token>, under: Bound, scan: Scan)
    requires Leads(tokens, bound, front, stream, under) && Placed(stream, under, scan)
    ensures Placed(tokens, bound, scan)
  {
    forall meta | meta in scan.attributes ensures MetaPlaced(tokens, bound, meta) {
      MetaDown(tokens, bound, front, stream, under, meta);
    }
    forall unread | unread in scan.unreadable ensures UnreadPlaced(tokens, bound, unread) {
      UnreadDown(tokens, bound, front, stream, under, unread);
    }
  }

  lemma GroupLeads(tokens: seq<Token>, bound: Bound, p: nat)
    requires IsGroup(tokens, p) && !IsBody(tokens, p)
    ensures Leads(tokens, bound, [p], tokens[p].stream, bound)
  {
    forall path | IsPath(tokens[p].stream, path)
      ensures IsPath(tokens, [p] + path) && StreamAt(tokens, [p] + path) == StreamAt(tokens[p].stream, path)
      ensures BoundAt(tokens, bound, [p] + path) == BoundAt(tokens[p].stream, bound, path)
    {
      PathDown(tokens, p, path);
      assert ([p] + path)[1..] == path;
    }
  }

  lemma UnreadBodyLeads(tokens: seq<Token>, bound: Bound, p: nat)
    requires IsBody(tokens, p) && RulesOf(tokens[p].stream).None?
    ensures Leads(tokens, bound, [p], tokens[p].stream, {})
  {
    forall path | IsPath(tokens[p].stream, path)
      ensures IsPath(tokens, [p] + path) && StreamAt(tokens, [p] + path) == StreamAt(tokens[p].stream, path)
      ensures BoundAt(tokens, bound, [p] + path) == BoundAt(tokens[p].stream, {}, path)
    {
      PathDown(tokens, p, path);
      assert ([p] + path)[1..] == path;
    }
  }

  lemma RuleGroupLeads(tokens: seq<Token>, bound: Bound, p: nat, q: nat)
    requires IsBody(tokens, p) && RulesOf(tokens[p].stream).Some? && IsGroup(tokens[p].stream, q)
    ensures var body := tokens[p].stream;
            Leads(tokens, bound, [p, q], body[q].stream, Bindings(MatcherFor(body, q)))
  {
    var body := tokens[p].stream;
    forall path | IsPath(body[q].stream, path)
      ensures IsPath(tokens, [p, q] + path) && StreamAt(tokens, [p, q] + path) == StreamAt(body[q].stream, path)
      ensures BoundAt(tokens, bound, [p, q] + path) == BoundAt(body[q].stream, Bindings(MatcherFor(body, q)), path)
    {
      PathDown(body, q, path);
      PathDown(tokens, p, [q] + path);
      assert [p, q] + path == [p] + ([q] + path);
      assert ([p] + ([q] + path))[1..] == [q] + path && ([q] + path)[1..] == path;
    }
  }

  // ----- everything recorded has its place

  lemma {:induction false} HerePlaced(tokens: seq<Token>, i: nat, bound: Bound)
    requires i < |tokens| && Visits(tokens, 0, i)
    ensures Placed(tokens, bound, WalkAt(tokens, i, bound))
    decreases Size(tokens), 2, |tokens| - i, 0
  {
    SizeAt(tokens, i);
    if IsHash(tokens, i) && AttributeGroup(tokens, i).Some? {
      var at := AttributeGroup(tokens, i).value;
      var content := tokens[at].stream;
      SizeAt(tokens, at);
      AttributePlaced(tokens, i, at, bound);
      WalkPlaced(content, bound);
      GroupLeads(tokens, bound, at);
      PlacedDown(tokens, bound, [at], content, bound, Walk(content, bound));
      PlacedPlus(tokens, bound, ItemScan(content, tokens[i].line, bound), Walk(content, bound));
    } else if IsDefinition(tokens, i) {
      SizeAt(tokens, i + 3);
      DefinitionPlaced(tokens, i, bound);
    } else if tokens[i].Group? {
      NoVisitedBody(tokens, i);
      WalkPlaced(tokens[i].stream, bound);
      GroupLeads(tokens, bound, i);
      PlacedDown(tokens, bound, [i], tokens[i].stream, bound, Walk(tokens[i].stream, bound));
    }
  }

  /** The walk never stands on the body of a definition. */
  lemma NoVisitedBody(tokens: seq<Token>, i: nat)
    requires Visits(tokens, 0, i)
    ensures !IsBody(tokens, i)
  {
    if IsBody(tokens, i) {
      DefinitionIsVisited(tokens, i - 3);
      VisitsApart(tokens, 0, i - 3, i);
    }
  }

  lemma AttributePlaced(tokens: seq<Token>, h: nat, p: nat, bound: Bound)
    requires IsHash(tokens, h) && OpensAt(tokens, h, p)
    ensures Placed(tokens, bound, ItemScan(tokens[p].stream, tokens[h].line, bound))
  {
    var content, line := tokens[p].stream, tokens[h].line;
    var scan := ItemScan(content, line, bound);
    assert ReadAt(tokens, bound, [], h, p, bound);
    forall meta | meta in scan.attributes ensures MetaPlaced(tokens, bound, meta) {
      MetasOfItem(content, line, bound, meta);
      assert MetaLeaf(ContentAt(tokens, bound, [], h, p, bound), LineAt(tokens, bound, [], h, p, bound), meta);
    }
    forall unread | unread in scan.unreadable ensures UnreadPlaced(tokens, bound, unread) {
      UnreadsOfItem(content, line, bound, unread);
      assert UnreadLeaf(ContentAt(tokens, bound, [], h, p, bound), LineAt(tokens, bound, [], h, p, bound), bound,
                        unread);
    }
  }

  lemma {:induction false} DefinitionPlaced(tokens: seq<Token>, d: nat, bound: Bound)
    requires IsDefinition(tokens, d) && TokenSize(tokens[d + 3]) <= Size(tokens)
    ensures Placed(tokens, bound, WalkAt(tokens, d, bound))
    decreases Size(tokens), 1, 0, 0
  {
    var body, name := tokens[d + 3].stream, Plain(tokens[d + 2].text);
    var rules := RulesOf(body);
    if rules.Some? {
      RulesPlaced(tokens, d + 3, rules.value, bound);
    } else {
      var unread := UnreadRules(tokens[d].line, name);
      assert UnreadRulesAt(tokens, bound, [], d, unread);
      WalkPlaced(body, {});
      UnreadBodyLeads(tokens, bound, d + 3);
      PlacedDown(tokens, bound, [d + 3], body, {}, Walk(body, {}));
      PlacedPlus(tokens, bound, NOTHING.(unreadable := [unread]), Walk(body, {}));
    }
  }

  /** The rules from some rule of the body on. */
  ghost predicate LastRules(body: seq<Token>, rules: seq<nat>)
  {
    RulesOf(body).Some? && forall k :: 0 <= k < |rules| ==> rules[k] in RulesOf(body).value
  }

  lemma MatcherOfRule(body: seq<Token>, rules: seq<nat>)
    requires LastRules(body, rules) && rules != []
    ensures IsRuleAt(body, rules[0])
    ensures MatcherFor(body, rules[0]) == body[rules[0]].stream == MatcherFor(body, rules[0] + 3)
  {
    var all := RulesOf(body).value;
    assert rules[0] in all;
    var k :| 0 <= k < |all| && all[k] == rules[0];
    AfterTranscriber(body, 0, k);
  }

  lemma {:induction false} RulesPlaced(tokens: seq<Token>, p: nat, rules: seq<nat>, bound: Bound)
    requires IsBody(tokens, p) && TokenSize(tokens[p]) <= Size(tokens) && LastRules(tokens[p].stream, rules)
    requires forall k :: 0 <= k < |rules| ==> IsRuleAt(tokens[p].stream, rules[k])
    ensures Placed(tokens, bound, RulesScan(tokens[p].stream, rules))
    decreases Size(tokens), 0, |rules|, 0
  {
    var body := tokens[p].stream;
    if rules == [] {
    } else {
      var r := rules[0];
      MatcherOfRule(body, rules);
      SizeAt(body, r);
      SizeAt(body, r + 3);
      var b := Bindings(body[r].stream);
      RuleGroupPlaced(tokens, p, r, bound);
      RuleGroupPlaced(tokens, p, r + 3, bound);
      RulesPlaced(tokens, p, rules[1..], bound);
      var matcher, transcriber := Walk(body[r].stream, b), Walk(body[r + 3].stream, b);
      PlacedPlus(tokens, bound, matcher, transcriber);
      PlacedPlus(tokens, bound, Plus(matcher, transcriber), RulesScan(body, rules[1..]));
    }
  }

  lemma {:induction false} RuleGroupPlaced(tokens: seq<Token>, p: nat, q: nat, bound: Bound)
    requires IsBody(tokens, p) && TokenSize(tokens[p]) <= Size(tokens) && RulesOf(tokens[p].stream).Some?
    requires IsGroup(tokens[p].stream, q) && TokenSize(tokens[p].stream[q]) <= Size(tokens[p].stream)
    ensures var body := tokens[p].stream;
            Placed(tokens, bound, Walk(body[q].stream, Bindings(MatcherFor(body, q))))
    decreases Size(tokens), 0, 0, 0
  {
    var body := tokens[p].stream;
    var under := Bindings(MatcherFor(body, q));
    WalkPlaced(body[q].stream, under);
    RuleGroupLeads(tokens, bound, p, q);
    PlacedDown(tokens, bound, [p, q], body[q].stream, under, Walk(body[q].stream, under));
  }

  lemma {:induction false} FromPlaced(tokens: seq<Token>, i: nat, bound: Bound)
    requires i < |tokens| ==> Visits(tokens, 0, i)
    ensures Placed(tokens, bound, WalkFrom(tokens, i, bound))
    decreases Size(tokens), 2, if i < |tokens| then |tokens| - i else 0, 1
  {
    if i >= |tokens| {
    } else {
      var next := Next(tokens, i);
      HerePlaced(tokens, i, bound);
      if next < |tokens| { VisitsNext(tokens, 0, i); }
      FromPlaced(tokens, next, bound);
      PlacedPlus(tokens, bound, WalkAt(tokens, i, bound), WalkFrom(tokens, next, bound));
    }
  }

  lemma {:induction false} WalkPlaced(tokens: seq<Token>, bound: Bound)
    ensures Placed(tokens, bound, Walk(tokens, bound))
    decreases Size(tokens), 3, 0, 0
  {
    assert Walk(tokens, bound) == WalkFrom(tokens, 0, bound);
    FromPlaced(tokens, 0, bound);
  }

  // ----- what is recorded, exactly

  /** An attribute is recorded exactly when some hash, in a stream that is read, has it as a leaf. */
  lemma AttributesExactly(tokens: seq<Token>, bound: Bound, meta: Meta)
    ensures meta in Walk(tokens, bound).attributes <==> MetaPlaced(tokens, bound, meta)
  {
    WalkPlaced(tokens, bound);
    if MetaPlaced(tokens, bound, meta) {
      var path: seq<nat>, h: nat, p: nat, b: Bound :|
        ReadAt(tokens, bound, path, h, p, b) &&
        MetaLeaf(ContentAt(tokens, bound, path, h, p, b), LineAt(tokens, bound, path, h, p, b), meta);
      ReadIsRecorded(tokens, bound, path, h, p, b);
      MetasOfItem(ContentAt(tokens, bound, path, h, p, b), LineAt(tokens, bound, path, h, p, b), b, meta);
    }
  }

  /** An entry is unreadable exactly when some hash in a stream that is read has it as a leaf under the
      fragments in force there, or it is a definition whose body is no list of rules. */
  lemma UnreadsExactly(tokens: seq<Token>, bound: Bound, unread: Unread)
    ensures unread in Walk(tokens, bound).unreadable <==> UnreadPlaced(tokens, bound, unread)
  {
    WalkPlaced(tokens, bound);
    if path: seq<nat>, h: nat, p: nat, b: Bound :|
      ReadAt(tokens, bound, path, h, p, b) &&
      UnreadLeaf(ContentAt(tokens, bound, path, h, p, b), LineAt(tokens, bound, path, h, p, b), b, unread)
    {
      ReadIsRecorded(tokens, bound, path, h, p, b);
      UnreadsOfItem(ContentAt(tokens, bound, path, h, p, b), LineAt(tokens, bound, path, h, p, b), b, unread);
    }
    if path: seq<nat>, d: nat :| UnreadRulesAt(tokens, bound, path, d, unread) {
      UnreadRulesRecorded(tokens, bound, path, d, unread);
    }
  }

  lemma ReadIsRecorded(tokens: seq<Token>, bound: Bound, path: seq<nat>, h: nat, p: nat, b: Bound)
    requires ReadAt(tokens, bound, path, h, p, b)
    ensures var content, line := ContentAt(tokens, bound, path, h, p, b), LineAt(tokens, bound, path, h, p, b);
            Sub(ItemScan(content, line, b), Walk(tokens, bound))
  {
    var inner := StreamAt(tokens, path);
    var content, line := ContentAt(tokens, bound, path, h, p, b), LineAt(tokens, bound, path, h, p, b);
    PlaceIsWalked(tokens, bound, path);
    AttributeIsWalked(inner, b, h, p);
    SubTrans(ItemScan(content, line, b), Walk(inner, b), Walk(tokens, bound));
  }

  lemma UnreadRulesRecorded(tokens: seq<Token>, bound: Bound, path: seq<nat>, d: nat, unread: Unread)
    requires UnreadRulesAt(tokens, bound, path, d, unread)
    ensures unread in Walk(tokens, bound).unreadable
  {
    var inner, b := StreamAt(tokens, path), BoundAt(tokens, bound, path).value;
    PlaceIsWalked(tokens, bound, path);
    DefinitionIsVisited(inner, d);
    VisitedIsRecorded(inner, 0, d, b);
    assert unread in WalkAt(inner, d, b).unreadable;
  }
}
