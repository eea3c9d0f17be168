/** The forms that the scanner looks for (xtask/src/tokens.rs), written as the token patterns they are: each
    test of the scanner holds exactly where its pattern stands. */
module TokenForms {
  import opened Options
  import opened Text
  import opened Tokens
  import opened TokenWalk
  import opened TokenRefusals
  import opened TokenIncludes

  // ----- patterns

  datatype Form = Mark(symbol: char) | AnyName | Word(name: string) | AnyGroup | InBrackets | InParentheses

  ghost predicate Fits(token: Token, form: Form)
  {
    match form
    case Mark(symbol) => exists line :: token == Punct(symbol, line)
    case AnyName => exists text, line :: token == Ident(text, line)
    case Word(name) => exists text, line :: token == Ident(text, line) && Spells(text, name)
    case AnyGroup => exists delimiter, stream, line :: token == Group(delimiter, stream, line)
    case InBrackets => exists stream, line :: token == Group(Bracket, stream, line)
    case InParentheses => exists stream, line :: token == Group(Parenthesis, stream, line)
  }

  /** The identifier is the name, raw or not. */
  ghost predicate Spells(text: string, name: string)
  {
    text == "r#" + name || (text == name && !("r#" <= text))
  }

  /** The patterns stand one after the other from `i` on. */
  ghost predicate Reads(tokens: seq<Token>, i: int, forms: seq<Form>)
  {
    0 <= i <= i + |forms| <= |tokens| && forall k :: 0 <= k < |forms| ==> Fits(tokens[i + k], forms[k])
  }

  lemma PlainExactly(text: string, name: string)
    ensures Plain(text) == name <==> Spells(text, name)
  {
    assert "r#" <= text <==> |text| >= 2 && text[0] == 'r' && text[1] == '#';
    if "r#" <= text { assert text == "r#" + text[2..]; }
  }

  /** The tests of a single token. */
  lemma OneToken(tokens: seq<Token>, i: nat, symbol: char, name: string)
    ensures IsPunct(tokens, i, symbol) <==> Reads(tokens, i, [Mark(symbol)])
    ensures IsIdent(tokens, i) <==> Reads(tokens, i, [AnyName])
    ensures IsWord(tokens, i, name) <==> Reads(tokens, i, [Word(name)])
    ensures IsGroup(tokens, i) <==> Reads(tokens, i, [AnyGroup])
  {
    if i < |tokens| {
      FitsExactly(tokens[i], symbol, name);
      assert Fits(tokens[i + 0], [Word(name)][0]) <==> Fits(tokens[i], Word(name));
      assert Fits(tokens[i + 0], [Mark(symbol)][0]) <==> Fits(tokens[i], Mark(symbol));
      assert Fits(tokens[i + 0], [AnyName][0]) <==> Fits(tokens[i], AnyName);
      assert Fits(tokens[i + 0], [AnyGroup][0]) <==> Fits(tokens[i], AnyGroup);
    }
  }

  lemma FitsExactly(token: Token, symbol: char, name: string)
    ensures Fits(token, Mark(symbol)) <==> token.Punct? && token.symbol == symbol
    ensures Fits(token, AnyName) <==> token.Ident?
    ensures Fits(token, Word(name)) <==> token.Ident? && Plain(token.text) == name
    ensures Fits(token, AnyGroup) <==> token.Group?
    ensures Fits(token, InBrackets) <==> token.Group? && token.delimiter == Bracket
    ensures Fits(token, InParentheses) <==> token.Group? && token.delimiter == Parenthesis
  {
    if token.Ident? { PlainExactly(token.text, name); }
  }

  ghost predicate TwoFit(tokens: seq<Token>, i: nat, a: Form, b: Form)
  {
    i + 2 <= |tokens| && Fits(tokens[i], a) && Fits(tokens[i + 1], b)
  }

  lemma FormLists(tokens: seq<Token>, i: nat, a: Form, b: Form, c: Form, d: Form)
    ensures Reads(tokens, i, [a]) <==> i < |tokens| && Fits(tokens[i], a)
    ensures Reads(tokens, i, [a, b]) <==> TwoFit(tokens, i, a, b)
    ensures Reads(tokens, i, [a, b, c]) <==> TwoFit(tokens, i, a, b) && i + 2 < |tokens| && Fits(tokens[i + 2], c)
    ensures Reads(tokens, i, [a, b, c, d]) <==> TwoFit(tokens, i, a, b) && TwoFit(tokens, i + 2, c, d)
  {
    OneForm(tokens, i, a);
    TwoForms(tokens, i, a, b);
    ThreeForms(tokens, i, a, b, c);
    FourForms(tokens, i, a, b, c, d);
  }

  lemma OneForm(tokens: seq<Token>, i: nat, a: Form)
    ensures Reads(tokens, i, [a]) <==> i < |tokens| && Fits(tokens[i], a)
  {
    if Reads(tokens, i, [a]) { assert Fits(tokens[i + 0], [a][0]); }
  }

  lemma TwoForms(tokens: seq<Token>, i: nat, a: Form, b: Form)
    ensures Reads(tokens, i, [a, b]) <==> TwoFit(tokens, i, a, b)
  {
    if Reads(tokens, i, [a, b]) { assert Fits(tokens[i + 0], [a, b][0]) && Fits(tokens[i + 1], [a, b][1]); }
  }

  lemma ThreeForms(tokens: seq<Token>, i: nat, a: Form, b: Form, c: Form)
    ensures Reads(tokens, i, [a, b, c]) <==> TwoFit(tokens, i, a, b) && i + 2 < |tokens| && Fits(tokens[i + 2], c)
  {
    var forms := [a, b, c];
    if Reads(tokens, i, forms) {
      assert Fits(tokens[i + 0], forms[0]) && Fits(tokens[i + 1], forms[1]) && Fits(tokens[i + 2], forms[2]);
    }
  }

  lemma FourForms(tokens: seq<Token>, i: nat, a: Form, b: Form, c: Form, d: Form)
    ensures Reads(tokens, i, [a, b, c, d]) <==> TwoFit(tokens, i, a, b) && TwoFit(tokens, i + 2, c, d)
  {
    var forms := [a, b, c, d];
    if Reads(tokens, i, forms) {
      assert Fits(tokens[i + 0], forms[0]) && Fits(tokens[i + 1], forms[1]);
      assert Fits(tokens[i + 2], forms[2]) && Fits(tokens[i + 3], forms[3]);
    }
  }

  /** Each token by its constructor. */
  lemma FitsAll(tokens: seq<Token>)
    ensures forall i, symbol :: 0 <= i < |tokens| ==>
              (Fits(tokens[i], Mark(symbol)) <==> tokens[i].Punct? && tokens[i].symbol == symbol)
    ensures forall i, name :: 0 <= i < |tokens| ==>
              (Fits(tokens[i], Word(name)) <==> tokens[i].Ident? && Plain(tokens[i].text) == name)
    ensures forall i :: 0 <= i < |tokens| ==> (Fits(tokens[i], AnyName) <==> tokens[i].Ident?)
    ensures forall i :: 0 <= i < |tokens| ==> (Fits(tokens[i], AnyGroup) <==> tokens[i].Group?)
    ensures forall i :: 0 <= i < |tokens| ==>
              (Fits(tokens[i], InBrackets) <==> tokens[i].Group? && tokens[i].delimiter == Bracket)
    ensures forall i :: 0 <= i < |tokens| ==>
              (Fits(tokens[i], InParentheses) <==> tokens[i].Group? && tokens[i].delimiter == Parenthesis)
  {
    forall i, symbol | 0 <= i < |tokens|
      ensures Fits(tokens[i], Mark(symbol)) <==> tokens[i].Punct? && tokens[i].symbol == symbol
    {
      FitsExactly(tokens[i], symbol, "");
    }
    forall i, name | 0 <= i < |tokens|
      ensures Fits(tokens[i], Word(name)) <==> tokens[i].Ident? && Plain(tokens[i].text) == name
    {
      FitsExactly(tokens[i], ' ', name);
    }
    forall i | 0 <= i < |tokens|
      ensures Fits(tokens[i], AnyName) <==> tokens[i].Ident?
      ensures Fits(tokens[i], AnyGroup) <==> tokens[i].Group?
      ensures Fits(tokens[i], InBrackets) <==> tokens[i].Group? && tokens[i].delimiter == Bracket
      ensures Fits(tokens[i], InParentheses) <==> tokens[i].Group? && tokens[i].delimiter == Parenthesis
    {
      FitsExactly(tokens[i], ' ', "");
    }
  }

  // ----- hashes, calls, definitions, rules and use items

  lemma HashForm(tokens: seq<Token>, i: nat)
    ensures IsHash(tokens, i) <==> Reads(tokens, i, [Mark('#')])
  {
    OneToken(tokens, i, '#', "");
  }

  lemma CallForm(tokens: seq<Token>, i: nat)
    ensures IsCall(tokens, i) <==> Reads(tokens, i + 1, [Mark('!'), AnyGroup])
  {
    FitsAll(tokens);
    TwoForms(tokens, i + 1, Mark('!'), AnyGroup);
  }

  lemma DefinitionForm(tokens: seq<Token>, i: nat)
    ensures IsDefinition(tokens, i) <==> Reads(tokens, i, [Word("macro_rules"), Mark('!'), AnyName, AnyGroup])
  {
    FitsAll(tokens);
    FourForms(tokens, i, Word("macro_rules"), Mark('!'), AnyName, AnyGroup);
  }

  /** A macro named `use`. */
  lemma DefinesUseForm(tokens: seq<Token>, i: nat)
    ensures DefinesUse(tokens, i) <==> Reads(tokens, i, [Word("macro_rules"), Mark('!'), Word("use"), AnyGroup])
  {
    FitsAll(tokens);
    FourForms(tokens, i, Word("macro_rules"), Mark('!'), Word("use"), AnyGroup);
  }

  lemma RuleForm(tokens: seq<Token>, i: nat)
    ensures IsRuleAt(tokens, i) <==> Reads(tokens, i, [AnyGroup, Mark('='), Mark('>'), AnyGroup])
    ensures AfterRule(tokens, i) == if Reads(tokens, i + 4, [Mark(';')]) then i + 5 else i + 4
  {
    FitsAll(tokens);
    FourForms(tokens, i, AnyGroup, Mark('='), Mark('>'), AnyGroup);
    OneForm(tokens, i + 4, Mark(';'));
  }

  ghost function RuleEnd(body: seq<Token>, at: nat): nat
  {
    if Reads(body, at + 4, [Mark(';')]) then at + 5 else at + 4
  }

  /** The rules fill the body from `from` on: the first starts there, each starts where the one before
      ends, and the last ends the body. */
  ghost predicate Fill(body: seq<Token>, from: nat, rules: seq<nat>)
  {
    && (forall k :: 0 <= k < |rules| ==> Reads(body, rules[k], [AnyGroup, Mark('='), Mark('>'), AnyGroup]))
    && (if rules == [] then |body| <= from else rules[0] == from && |body| <= RuleEnd(body, rules[|rules| - 1]))
    && (forall k :: 0 <= k < |rules| - 1 ==> rules[k + 1] == RuleEnd(body, rules[k]))
  }

  lemma {:induction false} RulesFill(body: seq<Token>, from: nat, rules: seq<nat>)
    ensures RulesFrom(body, from) == Some(rules) <==> Fill(body, from, rules)
    decreases |rules|
  {
    RuleForm(body, from);
    if from >= |body| {
    } else if rules == [] {
      if RulesFrom(body, from).Some? { assert RulesFrom(body, from).value != []; }
    } else {
      var after, rest := AfterRule(body, from), rules[1..];
      assert rules == [rules[0]] + rest;
      RulesFill(body, after, rest);
      if Fill(body, from, rules) { FillNext(body, from, rules); }
      if rules[0] == from && IsRuleAt(body, from) && Fill(body, after, rest) { FillBefore(body, from, rest); }
    }
  }

  lemma FillNext(body: seq<Token>, from: nat, rules: seq<nat>)
    requires Fill(body, from, rules) && rules != []
    ensures Fill(body, RuleEnd(body, from), rules[1..])
  {
    var rest := rules[1..];
    forall k | 0 <= k < |rest| ensures Reads(body, rest[k], [AnyGroup, Mark('='), Mark('>'), AnyGroup]) {
      assert rest[k] == rules[k + 1];
    }
    forall k | 0 <= k < |rest| - 1 ensures rest[k + 1] == RuleEnd(body, rest[k]) {
      assert rules[k + 1 + 1] == RuleEnd(body, rules[k + 1]);
    }
    if rest != [] { assert rules[0 + 1] == RuleEnd(body, rules[0]); }
  }

  lemma FillBefore(body: seq<Token>, from: nat, rest: seq<nat>)
    requires Reads(body, from, [AnyGroup, Mark('='), Mark('>'), AnyGroup])
    requires Fill(body, RuleEnd(body, from), rest)
    ensures Fill(body, from, [from] + rest)
  {
    var rules := [from] + rest;
    forall k | 0 <= k < |rules| - 1 ensures rules[k + 1] == RuleEnd(body, rules[k]) {
      assert k > 0 ==> rest[k - 1 + 1] == RuleEnd(body, rest[k - 1]);
    }
  }

  /** The rules of a definition's body are exactly the rules that fill it. */
  lemma RulesExactly(body: seq<Token>, rules: seq<nat>)
    ensures RulesOf(body) == Some(rules) <==> Fill(body, 0, rules)
  {
    RulesFill(body, 0, rules);
  }

  /** A use item goes from its word to the next `;` or the end; `use<` opens none. */
  ghost predicate UseItemTo(tokens: seq<Token>, i: nat, end: nat)
  {
    && Reads(tokens, i, [Word("use")]) && !Reads(tokens, i + 1, [Mark('<')])
    && i < end <= |tokens|
    && (forall k: nat :: i < k < end ==> !Reads(tokens, k, [Mark(';')]))
    && (end < |tokens| ==> Reads(tokens, end, [Mark(';')]))
  }

  lemma {:induction false} SemicolonForm(tokens: seq<Token>, from: nat)
    requires from <= |tokens|
    ensures var end := NextSemicolon(tokens, from);
            && (forall k: nat :: from <= k < end ==> !Reads(tokens, k, [Mark(';')]))
            && (end < |tokens| ==> Reads(tokens, end, [Mark(';')]))
    decreases |tokens| - from
  {
    OneToken(tokens, from, ';', "");
    if from == |tokens| || IsPunct(tokens, from, ';') {
    } else {
      SemicolonForm(tokens, from + 1);
    }
  }

  lemma UseItemExactly(tokens: seq<Token>, i: nat, end: nat)
    ensures UseItemEnd(tokens, i) == Some(end) <==> UseItemTo(tokens, i, end)
  {
    OneToken(tokens, i, ' ', "use");
    OneToken(tokens, i + 1, '<', "");
    if i < |tokens| {
      SemicolonForm(tokens, i + 1);
      var next := NextSemicolon(tokens, i + 1);
      if UseItemTo(tokens, i, end) { assert !(next < end) && !(end < next); }
    }
  }

  // ----- the meta fragments a matcher binds

  /** The group at `g` follows a `#` or a `#!` and holds `$name:meta` in brackets. */
  ghost predicate BindsAt(tokens: seq<Token>, g: nat, name: string)
  {
    && g < |tokens| && tokens[g].Group? && tokens[g].delimiter.Bracket?
    && (Reads(tokens, g - 1, [Mark('#')]) || Reads(tokens, g - 2, [Mark('#'), Mark('!')]))
    && var inner := tokens[g].stream;
       && |inner| == 4 && Reads(inner, 0, [Mark('$'), Word(name), Mark(':')])
       && exists line :: inner[3] == Ident("meta", line)
  }

  lemma HashBefore(tokens: seq<Token>, g: nat)
    requires g <= |tokens|
    ensures FollowsAHash(tokens, g) <==>
            Reads(tokens, g - 1, [Mark('#')]) || Reads(tokens, g - 2, [Mark('#'), Mark('!')])
  {
    FitsAll(tokens);
    if g >= 1 { OneForm(tokens, g - 1, Mark('#')); }
    if g >= 2 { TwoForms(tokens, g - 2, Mark('#'), Mark('!')); }
  }

  lemma MetaBindingForm(group: Token, name: string)
    requires group.Group?
    ensures var inner := group.stream;
            name in MetaBinding(group) <==>
              && group.delimiter == Bracket && |inner| == 4 && Reads(inner, 0, [Mark('$'), Word(name), Mark(':')])
              && exists line :: inner[3] == Ident("meta", line)
  {
    var inner := group.stream;
    FitsAll(inner);
    ThreeForms(inner, 0, Mark('$'), Word(name), Mark(':'));
    if |inner| == 4 && inner[3].Ident? && inner[3].text == "meta" { assert inner[3] == Ident("meta", inner[3].line); }
  }

  lemma BindsForm(tokens: seq<Token>, g: nat, name: string)
    requires IsGroup(tokens, g)
    ensures FollowsAHash(tokens, g) && name in MetaBinding(tokens[g]) <==> BindsAt(tokens, g, name)
  {
    HashBefore(tokens, g);
    MetaBindingForm(tokens[g], name);
  }

  ghost predicate BindsSomewhere(tokens: seq<Token>, name: string)
  {
    exists path: seq<nat>, g: nat :: IsPath(tokens, path) && BindsAt(StreamAt(tokens, path), g, name)
  }

  lemma {:induction false} BoundFrom(tokens: seq<Token>, n: nat, name: string)
    requires n <= |tokens| && name in BindingsIn(tokens, n)
    ensures BindsSomewhere(tokens, name)
    decreases Size(tokens), n
  {
    var g := n - 1;
    SizeAt(tokens, g);
    if name in BindingsIn(tokens, g) {
      BoundFrom(tokens, g, name);
    } else {
      var stream := tokens[g].stream;
      BindsForm(tokens, g, name);
      if BindsAt(tokens, g, name) {
        assert IsPath(tokens, []) && StreamAt(tokens, []) == tokens;
      } else {
        BoundFrom(stream, |stream|, name);
        var path: seq<nat>, k: nat :| IsPath(stream, path) && BindsAt(StreamAt(stream, path), k, name);
        PathDown(tokens, g, path);
      }
    }
  }

  lemma {:induction false} BindingsGrow(tokens: seq<Token>, m: nat, n: nat, name: string)
    requires m <= n <= |tokens| && name in BindingsIn(tokens, m)
    ensures name in BindingsIn(tokens, n)
  {
    if m == n {
    } else {
      BindingsGrow(tokens, m, n - 1, name);
    }
  }

  lemma {:induction false} BoundAtPlace(tokens: seq<Token>, path: seq<nat>, g: nat, name: string)
    requires IsPath(tokens, path) && BindsAt(StreamAt(tokens, path), g, name)
    ensures name in Bindings(tokens)
    decreases |path|
  {
    var at := if path == [] then g else path[0];
    if path == [] {
      BindsForm(tokens, g, name);
    } else {
      BoundAtPlace(tokens[at].stream, path[1..], g, name);
    }
    assert name in BindingsIn(tokens, at + 1);
    BindingsGrow(tokens, at + 1, |tokens|, name);
  }

  /** A matcher binds exactly the names that stand in it, at any depth, as a `meta` fragment in an
      attribute's brackets. */
  lemma BindingsExactly(tokens: seq<Token>, name: string)
    ensures name in Bindings(tokens) <==> BindsSomewhere(tokens, name)
  {
    if name in Bindings(tokens) {
      BoundFrom(tokens, |tokens|, name);
    } else if BindsSomewhere(tokens, name) {
      var path: seq<nat>, g: nat :| IsPath(tokens, path) && BindsAt(StreamAt(tokens, path), g, name);
      BoundAtPlace(tokens, path, g, name);
    }
  }

  // ----- paths, shapes and lists

  ghost predicate JoinedBy(tokens: seq<Token>, i: nat)
  {
    Reads(tokens, i, [Mark(':'), Mark(':'), AnyName])
  }

  /** The tokens start with the path of `segments`, `used` tokens long, and with no longer one. */
  ghost predicate StartsPath(tokens: seq<Token>, segments: seq<string>, used: nat)
  {
    if segments == [] then used == 0 && !Reads(tokens, 0, [AnyName])
    else
      && used + 2 == 3 * |segments|
      && (forall k :: 0 <= k < |segments| ==> Reads(tokens, 3 * k, [Word(segments[k])]))
      && (forall k :: 0 <= k < |segments| - 1 ==> JoinedBy(tokens, 3 * k + 1))
      && !JoinedBy(tokens, used)
  }

  lemma JoinedForm(tokens: seq<Token>, i: nat)
    ensures JoinedBy(tokens, i) <==> IsPunct(tokens, i, ':') && IsPunct(tokens, i + 1, ':') && IsIdent(tokens, i + 2)
  {
    FitsAll(tokens);
    ThreeForms(tokens, i, Mark(':'), Mark(':'), AnyName);
  }

  lemma ReadsLater(tokens: seq<Token>, from: nat, i: nat, forms: seq<Form>)
    requires from <= |tokens|
    ensures Reads(tokens[from..], i, forms) <==> Reads(tokens, from + i, forms)
  {
    assert forall k :: 0 <= k < |tokens| - from ==> tokens[from..][k] == tokens[from + k];
    if Reads(tokens[from..], i, forms) {
      forall k | 0 <= k < |forms| ensures Fits(tokens[from + i + k], forms[k]) {
        assert Fits(tokens[from..][i + k], forms[k]);
      }
    }
    if Reads(tokens, from + i, forms) {
      forall k | 0 <= k < |forms| ensures Fits(tokens[from..][i + k], forms[k]) {
        assert Fits(tokens[from + i + k], forms[k]);
      }
    }
  }

  lemma SegmentsLater(tokens: seq<Token>, segments: seq<string>, k: nat)
    requires |tokens| >= 3 && k + 1 < |segments|
    ensures Reads(tokens[3..], 3 * k, [Word(segments[1..][k])]) <==> Reads(tokens, 3 * (k + 1), [Word(segments[k + 1])])
    ensures JoinedBy(tokens[3..], 3 * k + 1) <==> JoinedBy(tokens, 3 * (k + 1) + 1)
  {
    ReadsLater(tokens, 3, 3 * k, [Word(segments[1..][k])]);
    ReadsLater(tokens, 3, 3 * k + 1, [Mark(':'), Mark(':'), AnyName]);
  }

  lemma PathShorter(tokens: seq<Token>, segments: seq<string>, used: nat)
    requires |segments| >= 1 && JoinedBy(tokens, 1) && |tokens| >= 3 && StartsPath(tokens, segments, used)
    ensures Reads(tokens, 0, [Word(segments[0])])
    ensures used >= 3 && |segments| >= 2 && StartsPath(tokens[3..], segments[1..], used - 3)
  {
    var later, rest := tokens[3..], segments[1..];
    assert Reads(tokens, 3 * 0, [Word(segments[0])]);
    ReadsLater(tokens, 3, used - 3, [Mark(':'), Mark(':'), AnyName]);
    forall k: nat | k < |rest| ensures Reads(later, 3 * k, [Word(rest[k])]) {
      SegmentsLater(tokens, segments, k);
      assert Reads(tokens, 3 * (k + 1), [Word(segments[k + 1])]);
    }
    forall k: nat | k < |rest| - 1 ensures JoinedBy(later, 3 * k + 1) {
      SegmentsLater(tokens, segments, k);
      assert JoinedBy(tokens, 3 * (k + 1) + 1);
    }
  }

  lemma PathInFront(tokens: seq<Token>, segments: seq<string>, used: nat)
    requires |segments| >= 2 && JoinedBy(tokens, 1) && |tokens| >= 3 && used >= 3
    requires Reads(tokens, 0, [Word(segments[0])]) && StartsPath(tokens[3..], segments[1..], used - 3)
    ensures StartsPath(tokens, segments, used)
  {
    var later, rest := tokens[3..], segments[1..];
    ReadsLater(tokens, 3, used - 3, [Mark(':'), Mark(':'), AnyName]);
    forall k: nat | k < |segments| ensures Reads(tokens, 3 * k, [Word(segments[k])]) {
      if k > 0 {
        SegmentsLater(tokens, segments, k - 1);
        assert Reads(later, 3 * (k - 1), [Word(rest[k - 1])]);
      }
    }
    forall k: nat | k < |segments| - 1 ensures JoinedBy(tokens, 3 * k + 1) {
      if k > 0 {
        SegmentsLater(tokens, segments, k - 1);
        assert JoinedBy(later, 3 * (k - 1) + 1);
      }
    }
  }

  /** One more segment in front. */
  lemma PathLonger(tokens: seq<Token>, segments: seq<string>, used: nat)
    requires |segments| >= 1 && JoinedBy(tokens, 1) && |tokens| >= 3
    ensures StartsPath(tokens, segments, used) <==>
            && Reads(tokens, 0, [Word(segments[0])])
            && used >= 3 && |segments| >= 2 && StartsPath(tokens[3..], segments[1..], used - 3)
  {
    if StartsPath(tokens, segments, used) {
      PathShorter(tokens, segments, used);
    } else if Reads(tokens, 0, [Word(segments[0])]) && used >= 3 && |segments| >= 2 &&
              StartsPath(tokens[3..], segments[1..], used - 3) {
      PathInFront(tokens, segments, used);
    }
  }

  lemma PathStarts(tokens: seq<Token>)
    requires IsIdent(tokens, 0)
    ensures PathOf(tokens).0 != []
  {
  }

  lemma PathOfNext(tokens: seq<Token>)
    requires IsIdent(tokens, 0) && IsPunct(tokens, 1, ':') && IsPunct(tokens, 2, ':') && IsIdent(tokens, 3)
    ensures PathOf(tokens[3..]).0 != []
    ensures PathOf(tokens) == ([Plain(tokens[0].text)] + PathOf(tokens[3..]).0, 3 + PathOf(tokens[3..]).1)
  {
    PathStarts(tokens[3..]);
  }

  lemma ConsIs(first: string, rest: seq<string>, segments: seq<string>)
    requires segments != []
    ensures [first] + rest == segments <==> first == segments[0] && rest == segments[1..]
  {
    assert segments == [segments[0]] + segments[1..];
  }

  lemma PathOfLonger(tokens: seq<Token>, segments: seq<string>, used: nat)
    requires segments != [] && IsIdent(tokens, 0)
    requires IsPunct(tokens, 1, ':') && IsPunct(tokens, 2, ':') && IsIdent(tokens, 3)
    ensures PathOf(tokens) == (segments, used) <==>
            && IsWord(tokens, 0, segments[0])
            && used >= 3 && |segments| >= 2 && PathOf(tokens[3..]) == (segments[1..], used - 3)
  {
    PathOfNext(tokens);
    ConsIs(Plain(tokens[0].text), PathOf(tokens[3..]).0, segments);
  }

  lemma PathOfOne(tokens: seq<Token>, segments: seq<string>, used: nat)
    requires segments != [] && IsIdent(tokens, 0) && !JoinedBy(tokens, 1)
    ensures StartsPath(tokens, segments, used) <==> (segments, used) == ([Plain(tokens[0].text)], 1)
  {
    OneToken(tokens, 0, ' ', segments[0]);
    if StartsPath(tokens, segments, used) {
      var second: nat := 3 * 0 + 1;
      assert Reads(tokens, 3 * 0, [Word(segments[0])]);
      assert 0 < |segments| - 1 ==> JoinedBy(tokens, second);
      assert segments == [segments[0]];
    }
  }

  /** The path read is the one the tokens start with. */
  lemma {:induction false} PathExactly(tokens: seq<Token>, segments: seq<string>, used: nat)
    ensures PathOf(tokens) == (segments, used) <==> StartsPath(tokens, segments, used)
    decreases |tokens|
  {
    JoinedForm(tokens, 1);
    OneToken(tokens, 0, ' ', if segments == [] then "" else segments[0]);
    if !IsIdent(tokens, 0) {
    } else if JoinedBy(tokens, 1) {
      if segments != [] {
        PathLonger(tokens, segments, used);
        if used >= 3 { PathExactly(tokens[3..], segments[1..], used - 3); }
        PathOfLonger(tokens, segments, used);
      }
    } else if segments != [] {
      PathOfOne(tokens, segments, used);
    }
  }

  /** A shape that can be read, as a pattern over all of the tokens. */
  ghost predicate HasShape(tokens: seq<Token>, shape: Shape)
  {
    match shape
    case Binding => |tokens| == 4 && Reads(tokens, 0, [Mark('$'), AnyName, Mark(':'), AnyName])
    case Fragment(name) => |tokens| == 2 && Reads(tokens, 0, [Mark('$'), Word(name)])
    case MetaShape(path, None) =>
      path != [] && exists used: nat ::
        StartsPath(tokens, path, used) && (used == |tokens| || Reads(tokens, used, [Mark('=')]))
    case MetaShape(path, Some(group)) =>
      path != [] && exists used: nat ::
        StartsPath(tokens, path, used) && |tokens| == used + 1 && tokens[used] == group && group.Group?
    case Unreadable => false
  }

  /** The reader gives each readable shape exactly to the tokens of that pattern. */
  lemma ShapeExactly(tokens: seq<Token>, shape: Shape)
    requires shape != Unreadable
    ensures ShapeOf(tokens) == shape <==> HasShape(tokens, shape)
  {
    OneToken(tokens, 0, '$', "");
    if IsPunct(tokens, 0, '$') {
      FragmentForm(tokens, shape);
    } else {
      PathShape(tokens, shape);
    }
  }

  lemma FragmentForm(tokens: seq<Token>, shape: Shape)
    requires shape != Unreadable && IsPunct(tokens, 0, '$')
    ensures ShapeOf(tokens) == shape <==> HasShape(tokens, shape)
  {
    FitsAll(tokens);
    FourForms(tokens, 0, Mark('$'), AnyName, Mark(':'), AnyName);
    if shape.Fragment? { TwoForms(tokens, 0, Mark('$'), Word(shape.name)); }
    if shape.MetaShape? && shape.path != [] {
      forall used: nat ensures !StartsPath(tokens, shape.path, used) { PathExactly(tokens, shape.path, used); }
    }
  }

  lemma MetaHasShape(tokens: seq<Token>, shape: Shape)
    requires shape.MetaShape?
    ensures var (segments, used) := PathOf(tokens);
            HasShape(tokens, shape) <==>
              && segments != [] && shape.path == segments
              && match shape.list
                 case None => used == |tokens| || IsPunct(tokens, used, '=')
                 case Some(group) => |tokens| == used + 1 && tokens[used] == group && group.Group?
  {
    var (segments, used) := PathOf(tokens);
    OneToken(tokens, used, '=', "");
    forall n: nat ensures StartsPath(tokens, shape.path, n) <==> (segments, used) == (shape.path, n) {
      PathExactly(tokens, shape.path, n);
    }
  }

  lemma PathShape(tokens: seq<Token>, shape: Shape)
    requires shape != Unreadable && !IsPunct(tokens, 0, '$')
    ensures ShapeOf(tokens) == shape <==> HasShape(tokens, shape)
  {
    if shape.MetaShape? {
      MetaHasShape(tokens, shape);
    } else {
      if |tokens| > 0 { FitsExactly(tokens[0], '$', ""); }
      FourForms(tokens, 0, Mark('$'), AnyName, Mark(':'), AnyName);
      if shape.Fragment? { TwoForms(tokens, 0, Mark('$'), Word(shape.name)); }
    }
  }

  /** `cfg_attr` is unwrapped when it stands alone before one group. */
  lemma CfgAttrForm(tokens: seq<Token>)
    ensures IsCfgAttr(ShapeOf(tokens)) <==> |tokens| == 2 && Reads(tokens, 0, [Word("cfg_attr"), AnyGroup])
  {
    FitsAll(tokens);
    TwoForms(tokens, 0, Word("cfg_attr"), AnyGroup);
    OneToken(tokens, 0, '$', "cfg_attr");
    JoinedForm(tokens, 1);
    if |tokens| == 2 {
      PathExactly(tokens, ["cfg_attr"], 1);
      PathOfOneName(tokens);
    }
    if IsCfgAttr(ShapeOf(tokens)) {
      var used := PathOf(tokens).1;
      PathExactly(tokens, ["cfg_attr"], used);
      assert Reads(tokens, 3 * 0, [Word("cfg_attr")]);
    }
  }

  lemma PathOfOneName(tokens: seq<Token>)
    requires |tokens| == 2
    ensures PathOf(tokens) == if tokens[0].Ident? then ([Plain(tokens[0].text)], 1) else ([], 0)
  {
  }

  /** Without a comma there is one part. */
  lemma {:induction false} OnePart(a: seq<Token>)
    requires forall i :: 0 <= i < |a| ==> !Fits(a[i], Mark(','))
    ensures CommaParts(a) == [a]
  {
    if a == [] {
    } else {
      FitsExactly(a[0], ',', "");
      OnePart(a[1..]);
      assert a == [a[0]] + a[1..];
    }
  }

  /** A comma cuts a list in two, and each side is cut on its own. */
  lemma {:induction false} CommasCut(a: seq<Token>, line: nat, b: seq<Token>)
    ensures CommaParts(a + [Punct(',', line)] + b) == CommaParts(a) + CommaParts(b)
  {
    var whole := a + [Punct(',', line)] + b;
    if a == [] {
      assert whole[1..] == b;
    } else {
      CommasCut(a[1..], line, b);
      assert whole[0] == a[0] && whole[1..] == a[1..] + [Punct(',', line)] + b;
      Regroup(a[0], CommaParts(a[1..]), CommaParts(b));
    }
  }

  ghost predicate HoldsEquals(part: seq<Token>)
  {
    exists i: nat :: Reads(part, i, [Mark('=')])
  }

  /** A list item is an assignment when it holds a `=`, a path when it is one, and unreadable otherwise. */
  lemma ListItemExactly(part: seq<Token>, segments: seq<string>)
    ensures ListItem(part) == Assignment <==> HoldsEquals(part)
    ensures ListItem(part) == PathItem(segments) <==>
            !HoldsEquals(part) && segments != [] && StartsPath(part, segments, |part|)
    ensures ListItem(part).UnreadableItem? ==> ListItem(part).part == part
  {
    forall i: nat ensures IsPunct(part, i, '=') <==> Reads(part, i, [Mark('=')]) { OneToken(part, i, '=', ""); }
    assert HoldsEquals(part) <==> exists i :: 0 <= i < |part| && IsPunct(part, i, '=') by {
      if i: nat :| Reads(part, i, [Mark('=')]) { assert IsPunct(part, i, '='); }
    }
    PathExactly(part, segments, |part|);
  }

  /** What an attribute is recorded as: its line, its path and the items of its list, one for each part. */
  lemma MetaByFields(line: nat, path: seq<string>, group: Token)
    requires group.Group?
    ensures MetaOf(line, MetaShape(path, None)) == Meta(line, path, None)
    ensures var meta := MetaOf(line, MetaShape(path, Some(group)));
            && meta.line == line && meta.path == path && meta.list.Some?
            && |meta.list.value| == |Parts(group.stream)|
            && forall i :: 0 <= i < |Parts(group.stream)| ==> meta.list.value[i] == ListItem(Parts(group.stream)[i])
  {
  }

  /** `cfg_attr` unwraps to every part but its predicate. */
  lemma WrappedParts(group: Token, first: seq<Token>, rest: seq<seq<Token>>)
    requires group.Group? && Parts(group.stream) == [first] + rest
    ensures Wrapped(group) == rest
  {
  }

  /** The identifiers at any depth, raw or not, with their lines. */
  ghost predicate NamesAt(tokens: seq<Token>, path: seq<nat>, i: nat, at: Located)
  {
    && IsPath(tokens, path) && i < |StreamAt(tokens, path)|
    && exists text :: StreamAt(tokens, path)[i] == Ident(text, at.line) && Spells(text, at.name)
  }

  lemma {:induction false} IdentifiersConcat(a: seq<Token>, b: seq<Token>)
    ensures Identifiers(a + b) == Identifiers(a) + Identifiers(b)
  {
    if a == [] {
      assert a + b == b;
    } else {
      var rest := a[1..];
      IdentifiersConcat(rest, b);
      assert a + b == [a[0]] + (rest + b);
      IdentifiersCons(a[0], rest + b);
      IdentifiersCons(a[0], rest);
      assert a == [a[0]] + rest;
      Associate(IdentifiersOf(a[0]), Identifiers(rest), Identifiers(b));
    }
  }

  lemma IdentifiersCons(token: Token, rest: seq<Token>)
    ensures Identifiers([token] + rest) == IdentifiersOf(token) + Identifiers(rest)
  {
    assert ([token] + rest)[1..] == rest;
  }

  lemma {:induction false} NamedAtPlace(tokens: seq<Token>, path: seq<nat>, i: nat, at: Located)
    requires NamesAt(tokens, path, i, at)
    ensures at in Identifiers(tokens)
    decreases |path|
  {
    var k := if path == [] then i else path[0];
    if path == [] {
      PlainExactly(tokens[i].text, at.name);
    } else {
      NamedAtPlace(tokens[k].stream, path[1..], i, at);
    }
    assert at in IdentifiersOf(tokens[k]);
    var before, here, after := tokens[..k], [tokens[k]], tokens[k + 1..];
    assert tokens == before + (here + after);
    IdentifiersConcat(before, here + after);
    IdentifiersConcat(here, after);
    assert Identifiers(here) == IdentifiersOf(tokens[k]) + Identifiers([]);
  }

  lemma {:induction false} NameOfIdentifier(tokens: seq<Token>, at: Located) returns (path: seq<nat>, i: nat)
    requires at in Identifiers(tokens)
    ensures NamesAt(tokens, path, i, at)
    decreases Size(tokens), |tokens|
  {
    var rest := tokens[1..];
    if at !in IdentifiersOf(tokens[0]) {
      path, i := NameOfIdentifier(rest, at);
      if path == [] {
        i := i + 1;
      } else {
        PathDown(tokens, path[0] + 1, path[1..]);
        assert rest[path[0]] == tokens[path[0] + 1];
        path := [path[0] + 1] + path[1..];
      }
    } else if tokens[0].Ident? {
      path, i := [], 0;
      PlainExactly(tokens[0].text, at.name);
    } else {
      SizeAt(tokens, 0);
      path, i := NameOfIdentifier(tokens[0].stream, at);
      PathDown(tokens, 0, path);
      path := [0] + path;
    }
  }

  /** The identifiers of a token list are those that stand in it at any depth. */
  lemma IdentifiersExactly(tokens: seq<Token>, at: Located)
    ensures at in Identifiers(tokens) <==> exists path: seq<nat>, i: nat :: NamesAt(tokens, path, i, at)
  {
    if at in Identifiers(tokens) {
      var path, i := NameOfIdentifier(tokens, at);
    } else if path: seq<nat>, i: nat :| NamesAt(tokens, path, i, at) {
      NamedAtPlace(tokens, path, i, at);
    }
  }

  // ----- the refused forms

  /** A fragment call: a `!` that starts no `!=`, after a fragment other than `$crate` or after a repetition. */
  ghost predicate FragmentCallForm(tokens: seq<Token>, i: nat)
  {
    && Reads(tokens, i, [Mark('!')]) && !Reads(tokens, i + 1, [Mark('=')])
    && (NamedFragment(tokens, i) || AfterRepetitionForm(tokens, i))
  }

  ghost predicate AfterRepetitionForm(tokens: seq<Token>, i: nat)
  {
    exists g: nat :: RepetitionForm(tokens, g, i)
  }

  /** `$(..)` at `g - 1` and `g`, then at most three tokens that are no groups, then the operator before `i`. */
  ghost predicate RepetitionForm(tokens: seq<Token>, g: nat, i: nat)
  {
    && g + 2 <= i <= g + 5
    && Reads(tokens, g - 1, [Mark('$'), InParentheses])
    && NoGroupBetween(tokens, g, i - 1)
    && (Reads(tokens, i - 1, [Mark('*')]) || Reads(tokens, i - 1, [Mark('+')]) || Reads(tokens, i - 1, [Mark('?')]))
  }

  ghost predicate NoGroupBetween(tokens: seq<Token>, g: nat, end: int)
  {
    forall k: nat :: g < k < end ==> !Reads(tokens, k, [AnyGroup])
  }

  lemma NoGroups(tokens: seq<Token>, g: nat, end: int)
    requires end <= |tokens|
    ensures NoGroupBetween(tokens, g, end) <==> forall k: nat :: g < k < end ==> !tokens[k].Group?
  {
    forall k: nat | k < |tokens| ensures Reads(tokens, k, [AnyGroup]) <==> tokens[k].Group? {
      OneToken(tokens, k, ' ', "");
    }
  }

  ghost predicate IsOperator(tokens: seq<Token>, k: nat)
  {
    IsPunct(tokens, k, '*') || IsPunct(tokens, k, '+') || IsPunct(tokens, k, '?')
  }

  /** The same by the tokens' fields. */
  ghost predicate RepetitionAt(tokens: seq<Token>, g: nat, i: nat)
    requires i < |tokens|
  {
    && g + 2 <= i <= g + 5 && OpensARepetition(tokens, g)
    && (forall k: nat :: g < k < i - 1 ==> !tokens[k].Group?)
    && IsOperator(tokens, i - 1)
  }

  lemma OperatorForm(tokens: seq<Token>, k: nat)
    ensures IsOperator(tokens, k) <==>
            Reads(tokens, k, [Mark('*')]) || Reads(tokens, k, [Mark('+')]) || Reads(tokens, k, [Mark('?')])
  {
    OneToken(tokens, k, '*', "");
    OneToken(tokens, k, '+', "");
    OneToken(tokens, k, '?', "");
  }

  lemma OpensForm(tokens: seq<Token>, g: nat)
    ensures OpensARepetition(tokens, g) <==> Reads(tokens, g - 1, [Mark('$'), InParentheses])
  {
    if 1 <= g < |tokens| {
      TwoForms(tokens, g - 1, Mark('$'), InParentheses);
      FitsExactly(tokens[g - 1], '$', "");
      FitsExactly(tokens[g], ' ', "");
    }
  }

  lemma RepetitionByFields(tokens: seq<Token>, g: nat, i: nat)
    requires i < |tokens|
    ensures RepetitionForm(tokens, g, i) <==> RepetitionAt(tokens, g, i)
  {
    OpensForm(tokens, g);
    NoGroups(tokens, g, i - 1);
    if i >= 1 { OperatorForm(tokens, i - 1); }
  }

  lemma RepetitionExactly(tokens: seq<Token>, i: nat)
    requires i < |tokens|
    ensures AfterRepetition(tokens, i) <==> AfterRepetitionForm(tokens, i)
  {
    forall g: nat ensures RepetitionForm(tokens, g, i) <==> RepetitionAt(tokens, g, i) {
      RepetitionByFields(tokens, g, i);
    }
    if i >= 1 {
      var at := LastGroup(tokens, i - 1);
      if AfterRepetition(tokens, i) { assert RepetitionAt(tokens, at.value, i); }
      forall g: nat | RepetitionAt(tokens, g, i) ensures AfterRepetition(tokens, i) {
        assert tokens[g].Group? && at == Some(g);
      }
    }
  }

  ghost predicate NamedFragment(tokens: seq<Token>, i: nat)
  {
    Reads(tokens, i - 2, [Mark('$'), AnyName]) && !Reads(tokens, i - 1, [Word("crate")])
  }

  lemma AfterFragmentForm(tokens: seq<Token>, i: nat)
    requires i < |tokens|
    ensures AfterFragment(tokens, i) <==> NamedFragment(tokens, i)
  {
    if i >= 2 {
      TwoForms(tokens, i - 2, Mark('$'), AnyName);
      FitsExactly(tokens[i - 2], '$', "");
      FitsExactly(tokens[i - 1], ' ', "");
      OneToken(tokens, i - 1, ' ', "crate");
    }
  }

  lemma FragmentCallExactly(tokens: seq<Token>, i: nat)
    ensures IsFragmentCall(tokens, i) <==> FragmentCallForm(tokens, i)
  {
    OneToken(tokens, i, '!', "");
    OneToken(tokens, i + 1, '=', "");
    if i < |tokens| {
      AfterFragmentForm(tokens, i);
      RepetitionExactly(tokens, i);
    }
  }

  lemma TtFragmentExactly(tokens: seq<Token>, i: nat)
    ensures IsTtFragment(tokens, i) <==> Reads(tokens, i, [Mark('$'), AnyName, Mark(':'), Word("tt")])
  {
    FitsAll(tokens);
    FourForms(tokens, i, Mark('$'), AnyName, Mark(':'), Word("tt"));
  }

  /** One of the patterns stands at some place of the stream, at any depth. */
  ghost predicate HoldsForm(stream: seq<Token>, path: seq<nat>, k: nat, forms: seq<Form>)
  {
    IsPath(stream, path) && Reads(StreamAt(stream, path), k, forms)
  }

  ghost predicate HoldsSomewhere(stream: seq<Token>, forms: seq<Form>)
  {
    exists path: seq<nat>, k: nat :: HoldsForm(stream, path, k, forms)
  }

  lemma DefinesExactly(stream: seq<Token>)
    ensures DefinesAMacro(stream) <==> HoldsSomewhere(stream, [Word("macro_rules"), Mark('!')])
  {
    AnywhereExactly(stream, StartsADefinition);
    forall tokens: seq<Token>, k: nat
      ensures StartsADefinition(tokens, k) <==> Reads(tokens, k, [Word("macro_rules"), Mark('!')])
    {
      FitsAll(tokens);
      TwoForms(tokens, k, Word("macro_rules"), Mark('!'));
    }
    if AtSomePlace(stream, StartsADefinition) {
      var path: seq<nat>, k: nat :|
        IsPath(stream, path) && k < |StreamAt(stream, path)| && StartsADefinition(StreamAt(stream, path), k);
      assert HoldsForm(stream, path, k, [Word("macro_rules"), Mark('!')]);
    }
  }

  /** A definition whose body defines a macro at some depth. */
  lemma NestedExactly(tokens: seq<Token>, i: nat)
    ensures IsNestedDefinition(tokens, i) <==>
            && Reads(tokens, i, [Word("macro_rules"), Mark('!')]) && i + 3 < |tokens| && tokens[i + 3].Group?
            && HoldsSomewhere(tokens[i + 3].stream, [Word("macro_rules"), Mark('!')])
  {
    FitsAll(tokens);
    TwoForms(tokens, i, Word("macro_rules"), Mark('!'));
    if IsGroup(tokens, i + 3) { DefinesExactly(tokens[i + 3].stream); }
  }

  /** A `$` other than that of `$crate`. */
  ghost predicate FragmentIn(stream: seq<Token>, path: seq<nat>, k: nat)
  {
    HoldsForm(stream, path, k, [Mark('$')]) && !HoldsForm(stream, path, k + 1, [Word("crate")])
  }

  ghost predicate FragmentSomewhere(stream: seq<Token>)
  {
    exists path: seq<nat>, k: nat :: FragmentIn(stream, path, k)
  }

  lemma HoldsFragmentExactly(stream: seq<Token>)
    ensures HoldsAFragment(stream) <==> FragmentSomewhere(stream)
  {
    AnywhereExactly(stream, StartsAFragment);
    forall tokens: seq<Token>, k: nat
      ensures StartsAFragment(tokens, k) <==> Reads(tokens, k, [Mark('$')]) && !Reads(tokens, k + 1, [Word("crate")])
    {
      OneToken(tokens, k, '$', "");
      OneToken(tokens, k + 1, ' ', "crate");
    }
    if AtSomePlace(stream, StartsAFragment) {
      var path: seq<nat>, k: nat :|
        IsPath(stream, path) && k < |StreamAt(stream, path)| && StartsAFragment(StreamAt(stream, path), k);
      assert FragmentIn(stream, path, k);
    }
  }

  /** A use item that holds a fragment at some depth. */
  lemma UseFragmentExactly(tokens: seq<Token>, i: nat)
    ensures IsUseFragment(tokens, i) <==>
            exists end: nat :: UseItemTo(tokens, i, end) && FragmentSomewhere(tokens[i + 1..end])
  {
    forall end: nat ensures UseItemEnd(tokens, i) == Some(end) <==> UseItemTo(tokens, i, end) {
      UseItemExactly(tokens, i, end);
    }
    var end := UseItemEnd(tokens, i);
    if end.Some? { HoldsFragmentExactly(tokens[i + 1..end.value]); }
  }

  /** The word `clippy` or a `$`. */
  ghost predicate ClippyIn(stream: seq<Token>, path: seq<nat>, k: nat)
  {
    HoldsForm(stream, path, k, [Word("clippy")]) || HoldsForm(stream, path, k, [Mark('$')])
  }

  ghost predicate ClippySomewhere(stream: seq<Token>)
  {
    exists path: seq<nat>, k: nat :: ClippyIn(stream, path, k)
  }

  lemma NamesClippyExactly(stream: seq<Token>)
    ensures NamesClippyOrAFragment(stream) <==> ClippySomewhere(stream)
  {
    AnywhereExactly(stream, ClippyOrFragment);
    forall tokens: seq<Token>, k: nat
      ensures ClippyOrFragment(tokens, k) <==> Reads(tokens, k, [Word("clippy")]) || Reads(tokens, k, [Mark('$')])
    {
      OneToken(tokens, k, '$', "clippy");
    }
    if AtSomePlace(stream, ClippyOrFragment) {
      var path: seq<nat>, k: nat :|
        IsPath(stream, path) && k < |StreamAt(stream, path)| && ClippyOrFragment(StreamAt(stream, path), k);
      assert ClippyIn(stream, path, k);
    }
  }

  lemma CfgMacroExactly(tokens: seq<Token>, i: nat)
    ensures IsCfgMacro(tokens, i) <==>
            && Reads(tokens, i, [Word("cfg"), Mark('!'), AnyGroup])
            && tokens[i + 2].Group? && ClippySomewhere(tokens[i + 2].stream)
  {
    FitsAll(tokens);
    ThreeForms(tokens, i, Word("cfg"), Mark('!'), AnyGroup);
    if IsGroup(tokens, i + 2) { NamesClippyExactly(tokens[i + 2].stream); }
  }

  /** The list that starts at `used` of a `cfg` or `cfg_attr` path. */
  ghost predicate ListAfter(meta: seq<Token>, word: string, used: nat)
  {
    && used < |meta| && meta[used].Group?
    && exists segments :: StartsPath(meta, segments + [word], used)
  }

  /** A `cfg` list names clippy or a fragment; a `cfg_attr` list does in its predicate, or one of the parts
      after it hides in turn. */
  lemma HidesExactly(meta: seq<Token>)
    ensures HidesFromClippy(meta) <==>
            exists used: nat ::
              || (ListAfter(meta, "cfg", used) && ClippySomewhere(meta[used].stream))
              || (ListAfter(meta, "cfg_attr", used) && HidesIn(Parts(meta[used].stream)))
  {
    var (segments, used) := PathOf(meta);
    LastSegment(meta, "cfg");
    LastSegment(meta, "cfg_attr");
    if IsGroup(meta, used) {
      var list := meta[used].stream;
      NamesClippyExactly(list);
      if Parts(list) != [] { NamesClippyExactly(Parts(list)[0]); }
    }
  }

  ghost predicate HidesIn(parts: seq<seq<Token>>)
  {
    parts != [] && (ClippySomewhere(parts[0]) || exists k :: 1 <= k < |parts| && HidesFromClippy(parts[k]))
  }

  lemma LastSegment(meta: seq<Token>, word: string)
    ensures var (segments, used) := PathOf(meta);
            forall n: nat :: ListAfter(meta, word, n) <==>
              n == used && IsGroup(meta, used) && segments != [] && segments[|segments| - 1] == word
  {
    var (segments, used) := PathOf(meta);
    PathExactly(meta, segments, used);
    if segments != [] { assert segments == segments[..|segments| - 1] + [segments[|segments| - 1]]; }
    forall front, n: nat | StartsPath(meta, front + [word], n)
      ensures n == used && segments == front + [word]
    {
      PathExactly(meta, front + [word], n);
    }
  }

  lemma CfgAttributeExactly(tokens: seq<Token>, i: nat)
    ensures IsCfgAttribute(tokens, i) <==>
            Reads(tokens, i, [Mark('#')]) && exists p: nat :: OpensAt(tokens, i, p) && HidesFromClippy(tokens[p].stream)
  {
    OneToken(tokens, i, '#', "");
    var at := AttributeGroup(tokens, i);
    if at.Some? {
      assert forall p: nat :: OpensAt(tokens, i, p) ==> p == at.value;
    }
  }

  ghost function If(refused: Refused, condition: bool): seq<Refused> { if condition then [refused] else [] }

  /** What is refused at one token, in the order of the seven rules. */
  lemma HereSpelled(tokens: seq<Token>, i: nat)
    requires i < |tokens|
    ensures var line := tokens[i].line;
            HereAll(tokens, i) ==
            If(Refused(line, LoneHash), IsLoneHash(tokens, i))
            + If(Refused(line, FragmentCall), IsFragmentCall(tokens, i))
            + If(Refused(line, TtFragment), IsTtFragment(tokens, i))
            + If(Refused(line, NestedDefinition), IsNestedDefinition(tokens, i))
            + If(Refused(line, UseFragment), IsUseFragment(tokens, i))
            + If(Refused(line, Cfg), IsCfgAttribute(tokens, i))
            + If(Refused(line, Cfg), IsCfgMacro(tokens, i))
  {
    assert |TESTS| == 7;
    HereNext(tokens, i, 0, LoneHashTest);
    HereNext(tokens, i, 1, FragmentCallTest);
    HereNext(tokens, i, 2, TtFragmentTest);
    HereNext(tokens, i, 3, NestedDefinitionTest);
    HereNext(tokens, i, 4, UseFragmentTest);
    HereNext(tokens, i, 5, CfgAttributeTest);
    HereNext(tokens, i, 6, CfgMacroTest);
    assert Here(tokens, i, 0) == [];
    assert [] + If(Refused(tokens[i].line, LoneHash), IsLoneHash(tokens, i)) ==
           If(Refused(tokens[i].line, LoneHash), IsLoneHash(tokens, i));
  }

  lemma HereNext(tokens: seq<Token>, i: nat, n: nat, test: Test)
    requires i < |tokens| && n < |TESTS| && TESTS[n] == test
    ensures Here(tokens, i, n + 1) ==
            Here(tokens, i, n) + If(Refused(tokens[i].line, RuleOf(test)), Trips(test, tokens, i))
  {
  }
}