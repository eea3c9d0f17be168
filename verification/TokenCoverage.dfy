/** What the walk and the refusals cover between them: every group, every attribute and every
    hash, at every depth (xtask/src/tokens.rs). */
module TokenCoverage {
  import opened Options
  import opened Tokens
  import opened TokenWalk
  import opened TokenRefusals

  // ----- records

  /** Everything `a` records, `b` records. */
  ghost predicate Sub(a: Scan, b: Scan)
  {
    && (forall x :: x in a.attributes ==> x in b.attributes)
    && (forall x :: x in a.unreadable ==> x in b.unreadable)
    && (forall x :: x in a.calls ==> x in b.calls)
    && (forall x :: x in a.uses ==> x in b.uses)
    && (forall x :: x in a.words ==> x in b.words)
    && (forall x :: x in a.definitions ==> x in b.definitions)
  }

  lemma SubPlus(a: Scan, b: Scan)
    ensures Sub(a, Plus(a, b)) && Sub(b, Plus(a, b))
  {
  }

  lemma SubTrans(a: Scan, b: Scan, c: Scan)
    requires Sub(a, b) && Sub(b, c)
    ensures Sub(a, c)
  {
  }

  // ----- which tokens the walk visits

  ghost predicate Visits(tokens: seq<Token>, i: nat, p: nat)
    decreases |tokens| - i
  {
    i < |tokens| && (i == p || Visits(tokens, Next(tokens, i), p))
  }

  lemma {:induction false} VisitedIsRecorded(tokens: seq<Token>, i: nat, p: nat, bound: Bound)
    requires Visits(tokens, i, p) && p < |tokens|
    ensures Sub(WalkAt(tokens, p, bound), WalkFrom(tokens, i, bound))
    decreases |tokens| - i
  {
    var rest := WalkFrom(tokens, Next(tokens, i), bound);
    SubPlus(WalkAt(tokens, i, bound), rest);
    if i == p {
    } else {
      VisitedIsRecorded(tokens, Next(tokens, i), p, bound);
      SubTrans(WalkAt(tokens, p, bound), rest, WalkFrom(tokens, i, bound));
    }
  }

  /** A token that the walk skips is inside the span of one it visits. */
  lemma {:induction false} SkippedBy(tokens: seq<Token>, i: nat, p: nat) returns (d: nat)
    requires i <= p < |tokens| && !Visits(tokens, i, p)
    ensures i <= d < p < Next(tokens, d) && Visits(tokens, i, d)
    decreases |tokens| - i
  {
    if p < Next(tokens, i) {
      d := i;
    } else {
      d := SkippedBy(tokens, Next(tokens, i), p);
    }
  }

  /** The walk skips only the `!` and the group of an attribute, and the `!`, the name and the body of
      a definition. */
  lemma SkippedKinds(tokens: seq<Token>, d: nat, p: nat)
    requires d < p < |tokens| && p < Next(tokens, d)
    ensures tokens[p].Punct? ==> tokens[p].symbol == '!'
    ensures tokens[p].Ident? ==> IsDefinition(tokens, d) && p == d + 2
    ensures tokens[p].Group? ==>
              (IsHash(tokens, d) && AttributeGroup(tokens, d) == Some(p)) ||
              (!IsHash(tokens, d) && IsDefinition(tokens, d) && p == d + 3)
  {
  }

  /** A macro definition is never inside the span of another token. */
  lemma DefinitionIsVisited(tokens: seq<Token>, d: nat)
    requires IsDefinition(tokens, d)
    ensures Visits(tokens, 0, d)
  {
    if !Visits(tokens, 0, d) {
      var e := SkippedBy(tokens, 0, d);
      SkippedKinds(tokens, e, d);
    }
  }

  /** The walk goes from one visited token to the next, and visits none between. */
  lemma {:induction false} VisitsApart(tokens: seq<Token>, from: nat, d: nat, i: nat)
    requires Visits(tokens, from, d) && Visits(tokens, from, i) && d < i
    ensures d < |tokens| && Next(tokens, d) <= i
    decreases |tokens| - from
  {
    VisitsLater(tokens, from, d);
    if from == d {
      VisitsLater(tokens, Next(tokens, d), i);
    } else {
      VisitsLater(tokens, Next(tokens, from), d);
      VisitsApart(tokens, Next(tokens, from), d, i);
    }
  }

  lemma {:induction false} VisitsLater(tokens: seq<Token>, from: nat, i: nat)
    requires Visits(tokens, from, i)
    ensures from <= i < |tokens|
    decreases |tokens| - from
  {
    if from == i {
    } else {
      VisitsLater(tokens, Next(tokens, from), i);
    }
  }

  lemma {:induction false} VisitsNext(tokens: seq<Token>, from: nat, i: nat)
    requires Visits(tokens, from, i) && i < |tokens| && Next(tokens, i) < |tokens|
    ensures Visits(tokens, from, Next(tokens, i))
    decreases |tokens| - from
  {
    if from == i {
      assert Visits(tokens, Next(tokens, i), Next(tokens, i));
    } else {
      VisitsNext(tokens, Next(tokens, from), i);
    }
  }

  // ----- the fragments in force at a place

  /** The group at `p` is the body of a macro definition. */
  predicate IsBody(tokens: seq<Token>, p: nat)
  {
    p >= 3 && IsDefinition(tokens, p - 3)
  }

  /** The matcher of the rule that the group at `p` belongs to: the group itself before an arrow, and
      otherwise the one three places back. */
  function MatcherFor(body: seq<Token>, p: nat): seq<Token>
  {
    var at := if IsPunct(body, p + 1, '=') || p < 3 then p else p - 3;
    if IsGroup(body, at) then body[at].stream else []
  }

  /** The fragments in force in the stream at `path`: those of the stream around it, none in a body that
      is no list of rules, and in a rule those that its own matcher binds. A list of rules is itself not
      read as a stream. */
  ghost function BoundAt(tokens: seq<Token>, bound: Bound, path: seq<nat>): Option<Bound>
    requires IsPath(tokens, path)
    decreases |path|
  {
    if path == [] then Some(bound)
    else
      var stream, rest := tokens[path[0]].stream, path[1..];
      if !IsBody(tokens, path[0]) then BoundAt(stream, bound, rest)
      else if RulesOf(stream).None? then BoundAt(stream, {}, rest)
      else if rest == [] then None
      else BoundAt(stream[rest[0]].stream, Bindings(MatcherFor(stream, rest[0])), rest[1..])
  }

  /** A list of rules holds only groups and the punctuation of rules, and each group is a matcher or a
      transcriber. */
  ghost predicate InRules(rules: seq<nat>, p: nat)
  {
    exists k :: 0 <= k < |rules| && (p == rules[k] || p == rules[k] + 3)
  }

  lemma {:induction false} RulesHold(body: seq<Token>, i: nat, p: nat)
    requires RulesFrom(body, i).Some? && i <= p < |body|
    ensures body[p].Group? || (body[p].Punct? && body[p].symbol in {'=', '>', ';'})
    ensures body[p].Group? ==> InRules(RulesFrom(body, i).value, p)
    decreases |body| - i
  {
    var after := AfterRule(body, i);
    var all, rest := RulesFrom(body, i).value, RulesFrom(body, after).value;
    assert all == [i] + rest;
    if p >= after {
      RulesHold(body, after, p);
      if body[p].Group? {
        var k :| 0 <= k < |rest| && (p == rest[k] || p == rest[k] + 3);
        assert all[k + 1] == rest[k];
      }
    } else if body[p].Group? {
      assert all[0] == i;
    }
  }

  /** Each rule's two groups are walked under what its matcher binds. */
  lemma {:induction false} RuleIsWalked(body: seq<Token>, rules: seq<nat>, k: nat)
    requires forall j :: 0 <= j < |rules| ==> IsRuleAt(body, rules[j])
    requires k < |rules|
    ensures IsRuleAt(body, rules[k])
    ensures var b := Bindings(body[rules[k]].stream);
            && Sub(Walk(body[rules[k]].stream, b), RulesScan(body, rules))
            && Sub(Walk(body[rules[k] + 3].stream, b), RulesScan(body, rules))
  {
    var first, later := rules[0], RulesScan(body, rules[1..]);
    assert IsRuleAt(body, first);
    var b := Bindings(body[first].stream);
    var matcher, transcriber := Walk(body[first].stream, b), Walk(body[first + 3].stream, b);
    SubPlus(matcher, transcriber);
    SubPlus(Plus(matcher, transcriber), later);
    if k == 0 {
      SubTrans(matcher, Plus(matcher, transcriber), RulesScan(body, rules));
      SubTrans(transcriber, Plus(matcher, transcriber), RulesScan(body, rules));
    } else {
      RuleIsWalked(body, rules[1..], k - 1);
      var c := Bindings(body[rules[k]].stream);
      SubTrans(Walk(body[rules[k]].stream, c), later, RulesScan(body, rules));
      SubTrans(Walk(body[rules[k] + 3].stream, c), later, RulesScan(body, rules));
    }
  }

  /** No arrow follows a transcriber. */
  lemma {:induction false} AfterTranscriber(body: seq<Token>, i: nat, k: nat)
    requires RulesFrom(body, i).Some? && k < |RulesFrom(body, i).value|
    ensures !IsPunct(body, RulesFrom(body, i).value[k] + 4, '=')
    decreases |body| - i
  {
    if k == 0 {
    } else {
      AfterTranscriber(body, AfterRule(body, i), k - 1);
    }
  }

  /** Every group of a list of rules belongs to one of them. */
  lemma RuleOfGroup(body: seq<Token>, p: nat) returns (k: nat)
    requires RulesOf(body).Some? && IsGroup(body, p)
    ensures var rules := RulesOf(body).value;
            && k < |rules| && (p == rules[k] || p == rules[k] + 3)
            && IsRuleAt(body, rules[k]) && MatcherFor(body, p) == body[rules[k]].stream
  {
    var rules := RulesOf(body).value;
    RulesHold(body, 0, p);
    k :| 0 <= k < |rules| && (p == rules[k] || p == rules[k] + 3);
    AfterTranscriber(body, 0, k);
    assert IsRuleAt(body, rules[k]);
  }

  lemma RuleGroupIsWalked(body: seq<Token>, p: nat)
    requires RulesOf(body).Some? && IsGroup(body, p)
    ensures Sub(Walk(body[p].stream, Bindings(MatcherFor(body, p))), RulesScan(body, RulesOf(body).value))
  {
    var k := RuleOfGroup(body, p);
    RuleIsWalked(body, RulesOf(body).value, k);
  }

  lemma DefinitionHolds(word: Located, name: string, body: seq<Token>)
    ensures var rules := RulesOf(body);
            if rules.Some? then Sub(RulesScan(body, rules.value), DefinitionScan(word, name, body))
            else Sub(Walk(body, {}), DefinitionScan(word, name, body))
  {
  }

  /** What the walk of `tokens` records of the body of a definition. */
  lemma BodyIsWalked(tokens: seq<Token>, bound: Bound, p: nat)
    requires IsBody(tokens, p)
    ensures var body := tokens[p].stream;
            var rules := RulesOf(body);
            if rules.Some? then Sub(RulesScan(body, rules.value), Walk(tokens, bound))
            else Sub(Walk(body, {}), Walk(tokens, bound))
  {
    var body, here := tokens[p].stream, WalkAt(tokens, p - 3, bound);
    DefinitionIsVisited(tokens, p - 3);
    VisitedIsRecorded(tokens, 0, p - 3, bound);
    DefinitionHolds(LocatedAt(tokens[p - 3]), Plain(tokens[p - 1].text), body);
    var part := if RulesOf(body).Some? then RulesScan(body, RulesOf(body).value) else Walk(body, {});
    SubTrans(part, here, Walk(tokens, bound));
  }

  /** An attribute's content is handed to the attribute reader and walked. */
  lemma AttributeIsWalked(tokens: seq<Token>, bound: Bound, d: nat, p: nat)
    requires IsHash(tokens, d) && AttributeGroup(tokens, d) == Some(p)
    ensures Sub(ItemScan(tokens[p].stream, tokens[d].line, bound), Walk(tokens, bound))
    ensures Sub(Walk(tokens[p].stream, bound), Walk(tokens, bound))
  {
    if !Visits(tokens, 0, d) {
      var e := SkippedBy(tokens, 0, d);
      SkippedKinds(tokens, e, d);
    }
    var stream := tokens[p].stream;
    var item := ItemScan(stream, tokens[d].line, bound);
    VisitedIsRecorded(tokens, 0, d, bound);
    assert WalkAt(tokens, d, bound) == Plus(item, Walk(stream, bound));
    SubPlus(item, Walk(stream, bound));
    SubTrans(item, WalkAt(tokens, d, bound), Walk(tokens, bound));
    SubTrans(Walk(stream, bound), WalkAt(tokens, d, bound), Walk(tokens, bound));
  }

  lemma GroupIsWalked(tokens: seq<Token>, bound: Bound, p: nat)
    requires IsGroup(tokens, p) && !IsBody(tokens, p)
    ensures Sub(Walk(tokens[p].stream, bound), Walk(tokens, bound))
  {
    if Visits(tokens, 0, p) {
      VisitedIsRecorded(tokens, 0, p, bound);
      assert WalkAt(tokens, p, bound) == Walk(tokens[p].stream, bound);
    } else {
      var d := SkippedBy(tokens, 0, p);
      SkippedKinds(tokens, d, p);
      AttributeIsWalked(tokens, bound, d, p);
    }
  }

  /** Every stream, at every depth, is walked under exactly the fragments in force at its place, unless
      it is a list of rules. */
  lemma {:induction false} PlaceIsWalked(tokens: seq<Token>, bound: Bound, path: seq<nat>)
    requires IsPath(tokens, path)
    ensures var b := BoundAt(tokens, bound, path);
            if b.Some? then Sub(Walk(StreamAt(tokens, path), b.value), Walk(tokens, bound))
            else RulesOf(StreamAt(tokens, path)).Some?
    decreases |path|
  {
    if path == [] {
    } else {
      var p, rest := path[0], path[1..];
      var stream := tokens[p].stream;
      var b := BoundAt(tokens, bound, path);
      if !IsBody(tokens, p) {
        GroupIsWalked(tokens, bound, p);
        PlaceIsWalked(stream, bound, rest);
        if b.Some? { SubTrans(Walk(StreamAt(tokens, path), b.value), Walk(stream, bound), Walk(tokens, bound)); }
      } else if RulesOf(stream).None? {
        BodyIsWalked(tokens, bound, p);
        PlaceIsWalked(stream, {}, rest);
        if b.Some? { SubTrans(Walk(StreamAt(tokens, path), b.value), Walk(stream, {}), Walk(tokens, bound)); }
      } else if rest != [] {
        PlaceInRules(tokens, bound, path);
      }
    }
  }

  lemma {:induction false} PlaceInRules(tokens: seq<Token>, bound: Bound, path: seq<nat>)
    requires IsPath(tokens, path) && |path| >= 2 && IsBody(tokens, path[0])
    requires RulesOf(tokens[path[0]].stream).Some?
    ensures var b := BoundAt(tokens, bound, path);
            if b.Some? then Sub(Walk(StreamAt(tokens, path), b.value), Walk(tokens, bound))
            else RulesOf(StreamAt(tokens, path)).Some?
    decreases |path|, 0
  {
    var p, rest := path[0], path[1..];
    var stream := tokens[p].stream;
    var q, deep := rest[0], stream[rest[0]].stream;
    var under, all := Bindings(MatcherFor(stream, q)), RulesScan(stream, RulesOf(stream).value);
    BodyIsWalked(tokens, bound, p);
    RuleGroupIsWalked(stream, q);
    SubTrans(Walk(deep, under), all, Walk(tokens, bound));
    PlaceIsWalked(deep, under, rest[1..]);
    var b := BoundAt(tokens, bound, path);
    assert b == BoundAt(deep, under, rest[1..]) && StreamAt(tokens, path) == StreamAt(deep, rest[1..]);
    if b.Some? { SubTrans(Walk(StreamAt(tokens, path), b.value), Walk(deep, under), Walk(tokens, bound)); }
  }

  // ----- every hash is read or refused

  /** Every leaf of an attribute, `cfg_attr` unwrapped, is a binding, a bound fragment, a recorded
      attribute or a recorded unreadable one. */
  ghost predicate ItemRecorded(tokens: seq<Token>, line: nat, bound: Bound, scan: Scan)
    decreases Size(tokens)
  {
    var shape := ShapeOf(tokens);
    match shape
    case Binding => true
    case Fragment(name) => name in bound || UnreadAttribute(line, tokens) in scan.unreadable
    case Unreadable => UnreadAttribute(line, tokens) in scan.unreadable
    case MetaShape(_, _) =>
      if IsCfgAttr(shape) then
        var parts := Wrapped(shape.list.value);
        forall i :: 0 <= i < |parts| ==> Size(parts[i]) < Size(tokens) && ItemRecorded(parts[i], line, bound, scan)
      else MetaOf(line, shape) in scan.attributes
  }

  lemma {:induction false} ItemRecordedGrows(tokens: seq<Token>, line: nat, bound: Bound, small: Scan, large: Scan)
    requires ItemRecorded(tokens, line, bound, small) && Sub(small, large)
    ensures ItemRecorded(tokens, line, bound, large)
    decreases Size(tokens)
  {
    var shape := ShapeOf(tokens);
    if IsCfgAttr(shape) {
      var parts := Wrapped(shape.list.value);
      forall i | 0 <= i < |parts| ensures Size(parts[i]) < Size(tokens) && ItemRecorded(parts[i], line, bound, large) {
        ItemRecordedGrows(parts[i], line, bound, small, large);
      }
    }
  }

  lemma {:induction false} PartIsScanned(parts: seq<seq<Token>>, line: nat, bound: Bound, size: nat, i: nat)
    requires forall k :: 0 <= k < |parts| ==> Size(parts[k]) < size
    requires i < |parts|
    ensures Sub(ItemScan(parts[i], line, bound), ItemScans(parts, line, bound, size))
  {
    var first, rest := ItemScan(parts[0], line, bound), ItemScans(parts[1..], line, bound, size);
    SubPlus(first, rest);
    if i == 0 {
    } else {
      PartIsScanned(parts[1..], line, bound, size, i - 1);
      assert parts[1..][i - 1] == parts[i];
      SubTrans(ItemScan(parts[i], line, bound), rest, ItemScans(parts, line, bound, size));
    }
  }

  /** The attribute reader drops no leaf. */
  lemma {:induction false} ItemScanRecords(tokens: seq<Token>, line: nat, bound: Bound)
    ensures ItemRecorded(tokens, line, bound, ItemScan(tokens, line, bound))
    decreases Size(tokens)
  {
    var shape, scan := ShapeOf(tokens), ItemScan(tokens, line, bound);
    if IsCfgAttr(shape) {
      var parts := Wrapped(shape.list.value);
      forall i | 0 <= i < |parts| ensures Size(parts[i]) < Size(tokens) && ItemRecorded(parts[i], line, bound, scan) {
        ItemScanRecords(parts[i], line, bound);
        PartIsScanned(parts, line, bound, Size(tokens), i);
        ItemRecordedGrows(parts[i], line, bound, ItemScan(parts[i], line, bound), scan);
      }
    }
  }

  /** What must hold of the hash at `h` in the stream at `path`: it opens an attribute whose every leaf is
      accounted for under exactly the fragments in force there, or it is refused as a lone hash. */
  ghost predicate HashSeen(tokens: seq<Token>, bound: Bound, path: seq<nat>, h: nat)
    requires IsPath(tokens, path) && IsHash(StreamAt(tokens, path), h)
  {
    var inner, b := StreamAt(tokens, path), BoundAt(tokens, bound, path);
    && (forall p: nat :: OpensAt(inner, h, p) ==>
          b.Some? && ItemRecorded(inner[p].stream, inner[h].line, b.value, Walk(tokens, bound)))
    && ((forall p :: !OpensAt(inner, h, p)) ==> Refused(inner[h].line, LoneHash) in Refusals(tokens, |tokens|))
  }

  /** Every hash, at every depth, is read or refused. */
  lemma EveryHashIsSeen(tokens: seq<Token>, bound: Bound, path: seq<nat>, h: nat)
    requires IsPath(tokens, path) && IsHash(StreamAt(tokens, path), h)
    ensures HashSeen(tokens, bound, path, h)
  {
    var inner, b := StreamAt(tokens, path), BoundAt(tokens, bound, path);
    var at := AttributeGroup(inner, h);
    PlaceIsWalked(tokens, bound, path);
    if at.None? {
      LoneHashesExactly(tokens, inner[h].line);
      assert LoneAt(inner, h, inner[h].line);
    } else if b.None? {
      RulesHold(inner, 0, h);
    } else {
      var content, line := inner[at.value].stream, inner[h].line;
      AttributeIsWalked(inner, b.value, h, at.value);
      ItemScanRecords(content, line, b.value);
      SubTrans(ItemScan(content, line, b.value), Walk(inner, b.value), Walk(tokens, bound));
      ItemRecordedGrows(content, line, b.value, ItemScan(content, line, b.value), Walk(tokens, bound));
    }
  }

  /** A fragment that is not in force where it stands is never dropped, whatever other rules bind. */
  lemma FragmentMustBeBound(tokens: seq<Token>, bound: Bound, path: seq<nat>, h: nat, p: nat, name: string)
    requires IsPath(tokens, path) && IsHash(StreamAt(tokens, path), h) && OpensAt(StreamAt(tokens, path), h, p)
    requires ShapeOf(StreamAt(tokens, path)[p].stream) == Fragment(name)
    ensures var inner, b := StreamAt(tokens, path), BoundAt(tokens, bound, path);
            && b.Some?
            && (name !in b.value ==>
                  UnreadAttribute(inner[h].line, inner[p].stream) in Walk(tokens, bound).unreadable)
  {
    EveryHashIsSeen(tokens, bound, path, h);
  }
}
