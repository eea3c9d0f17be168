/** Token trees and what the scanner reads from them (xtask/src/tokens.rs): attribute shapes, lists,
    macro rules, use items and bindings. */
module Tokens {
  import opened Options
  import opened Text

  datatype Delimiter = Parenthesis | Brace | Bracket | Invisible

  datatype Token =
    | Ident(text: string, line: nat)
    | Punct(symbol: char, line: nat)
    | Literal(line: nat)
    | Group(delimiter: Delimiter, stream: seq<Token>, line: nat)

  datatype Located = Located(line: nat, name: string)

  datatype Item = PathItem(segments: seq<string>) | Assignment | UnreadableItem(part: seq<Token>)

  datatype Meta = Meta(line: nat, path: seq<string>, list: Option<seq<Item>>)

  /** What could not be read: an attribute's tokens, or the rules of a macro definition. */
  datatype Unread = UnreadAttribute(line: nat, content: seq<Token>) | UnreadRules(line: nat, name: string)

  type Bound = set<string>

  // ----- sizes, for termination

  function Size(tokens: seq<Token>): nat
  {
    if tokens == [] then 0 else TokenSize(tokens[0]) + Size(tokens[1..])
  }

  function TokenSize(token: Token): nat
  {
    match token
    case Group(_, stream, _) => 1 + Size(stream)
    case _ => 1
  }

  lemma {:induction false} SizeAt(tokens: seq<Token>, i: nat)
    requires i < |tokens|
    ensures TokenSize(tokens[i]) <= Size(tokens)
  {
    if i == 0 {
    } else {
      SizeAt(tokens[1..], i - 1);
    }
  }

  // ----- single tokens

  function Plain(text: string): string
  {
    if |text| >= 2 && text[0] == 'r' && text[1] == '#' then text[2..] else text
  }

  predicate IsPunct(tokens: seq<Token>, i: nat, symbol: char)
  {
    i < |tokens| && tokens[i].Punct? && tokens[i].symbol == symbol
  }

  predicate IsIdent(tokens: seq<Token>, i: nat) { i < |tokens| && tokens[i].Ident? }

  predicate IsWord(tokens: seq<Token>, i: nat, word: string)
  {
    IsIdent(tokens, i) && Plain(tokens[i].text) == word
  }

  predicate IsGroup(tokens: seq<Token>, i: nat) { i < |tokens| && tokens[i].Group? }

  function LocatedAt(token: Token): Located
    requires token.Ident?
  {
    Located(token.line, Plain(token.text))
  }

  // ----- attributes

  /** `p` is the first place after `h` and an optional `!`, and a group in square brackets stands there. */
  predicate OpensAt(tokens: seq<Token>, h: nat, p: nat)
  {
    && p < |tokens| && tokens[p].Group? && tokens[p].delimiter.Bracket?
    && if h + 1 < |tokens| && tokens[h + 1].Punct? && tokens[h + 1].symbol == '!' then p == h + 2 else p == h + 1
  }

  /** The bracket group that a `#` opens, with an optional `!` between. */
  function AttributeGroup(tokens: seq<Token>, index: nat): (at: Option<nat>)
    ensures at.Some? ==> OpensAt(tokens, index, at.value)
    ensures at.None? ==> forall p :: !OpensAt(tokens, index, p)
    ensures at.Some? ==> IsGroup(tokens, at.value) && index < at.value <= index + 2
    ensures at.Some? && at.value == index + 2 ==> IsPunct(tokens, index + 1, '!')
  {
    var at := if IsPunct(tokens, index + 1, '!') then index + 2 else index + 1;
    if IsGroup(tokens, at) && tokens[at].delimiter == Bracket then Some(at) else None
  }

  /** A path of identifiers joined by `::`, and the tokens it takes. */
  function PathOf(tokens: seq<Token>): (r: (seq<string>, nat))
    ensures r.1 <= |tokens|
  {
    if !IsIdent(tokens, 0) then ([], 0)
    else if IsPunct(tokens, 1, ':') && IsPunct(tokens, 2, ':') && IsIdent(tokens, 3) then
      var (segments, used) := PathOf(tokens[3..]);
      ([Plain(tokens[0].text)] + segments, 3 + used)
    else ([Plain(tokens[0].text)], 1)
  }

  datatype Shape =
    | Binding
    | Fragment(name: string)
    | MetaShape(path: seq<string>, list: Option<Token>)
    | Unreadable

  function FragmentShape(rest: seq<Token>): Shape
  {
    if |rest| == 1 && rest[0].Ident? then Fragment(Plain(rest[0].text))
    else if |rest| == 3 && rest[0].Ident? && IsPunct(rest, 1, ':') && rest[2].Ident? then Binding
    else Unreadable
  }

  function ShapeOf(tokens: seq<Token>): (shape: Shape)
    ensures shape.MetaShape? && shape.list.Some? ==>
            shape.list.value.Group? && TokenSize(shape.list.value) <= Size(tokens)
  {
    if IsPunct(tokens, 0, '$') then FragmentShape(tokens[1..])
    else
      var (segments, used) := PathOf(tokens);
      var rest := tokens[used..];
      if segments == [] then Unreadable
      else if rest == [] then MetaShape(segments, None)
      else if |rest| == 1 && rest[0].Group? then
        SizeAt(tokens, used);
        MetaShape(segments, Some(rest[0]))
      else if IsPunct(rest, 0, '=') then MetaShape(segments, None)
      else Unreadable
  }

  // ----- delimited lists

  /** The parts between commas, empty parts included. */
  function CommaParts(stream: seq<Token>): (parts: seq<seq<Token>>)
    ensures |parts| >= 1
  {
    if stream == [] then [[]]
    else
      var rest := CommaParts(stream[1..]);
      if IsPunct(stream, 0, ',') then [[]] + rest else [[stream[0]] + rest[0]] + rest[1..]
  }

  function Parts(stream: seq<Token>): seq<seq<Token>> { NonEmpty(CommaParts(stream)) }

  lemma {:induction false} CommaPartsSize(stream: seq<Token>, part: seq<Token>)
    requires part in CommaParts(stream)
    ensures Size(part) <= Size(stream)
  {
    if stream == [] {
    } else {
      var rest := CommaParts(stream[1..]);
      if IsPunct(stream, 0, ',') {
        if part != [] { CommaPartsSize(stream[1..], part); }
      } else if part == [stream[0]] + rest[0] {
        CommaPartsSize(stream[1..], rest[0]);
        assert part[1..] == rest[0];
      } else {
        CommaPartsSize(stream[1..], part);
      }
    }
  }

  lemma {:induction false} NonEmptyMembers(parts: seq<seq<Token>>, part: seq<Token>)
    requires part in NonEmpty(parts)
    ensures part in parts
  {
    if part == parts[0] {
    } else {
      NonEmptyMembers(parts[1..], part);
    }
  }

  lemma PartsSize(stream: seq<Token>)
    ensures forall i :: 0 <= i < |Parts(stream)| ==> Size(Parts(stream)[i]) <= Size(stream)
  {
    forall i | 0 <= i < |Parts(stream)| ensures Size(Parts(stream)[i]) <= Size(stream) {
      NonEmptyMembers(CommaParts(stream), Parts(stream)[i]);
      CommaPartsSize(stream, Parts(stream)[i]);
    }
  }

  function ListItem(part: seq<Token>): Item
  {
    if exists i :: 0 <= i < |part| && IsPunct(part, i, '=') then Assignment
    else
      var (segments, used) := PathOf(part);
      if segments != [] && used == |part| then PathItem(segments) else UnreadableItem(part)
  }

  function ListItems(parts: seq<seq<Token>>): seq<Item>
  {
    seq(|parts|, i requires 0 <= i < |parts| => ListItem(parts[i]))
  }

  // ----- calls and use items

  predicate IsCall(tokens: seq<Token>, index: nat)
  {
    IsPunct(tokens, index + 1, '!') && IsGroup(tokens, index + 2)
  }

  /** The place of the next `;`, or the end. */
  function NextSemicolon(tokens: seq<Token>, from: nat): (end: nat)
    requires from <= |tokens|
    ensures from <= end <= |tokens|
    decreases |tokens| - from
  {
    if from == |tokens| || IsPunct(tokens, from, ';') then from else NextSemicolon(tokens, from + 1)
  }

  /** The end of the use item at `index`; `use<..>` is a capturing bound, not an item. */
  function UseItemEnd(tokens: seq<Token>, index: nat): (end: Option<nat>)
    ensures end.Some? ==> index < end.value <= |tokens| && IsWord(tokens, index, "use")
  {
    if !IsWord(tokens, index, "use") || IsPunct(tokens, index + 1, '<') then None
    else Some(NextSemicolon(tokens, index + 1))
  }

  function IdentifiersOf(token: Token): seq<Located>
  {
    match token
    case Ident(_, _) => [LocatedAt(token)]
    case Group(_, stream, _) => Identifiers(stream)
    case _ => []
  }

  function Identifiers(tokens: seq<Token>): seq<Located>
  {
    if tokens == [] then [] else IdentifiersOf(tokens[0]) + Identifiers(tokens[1..])
  }

  // ----- macro definitions

  predicate IsDefinition(tokens: seq<Token>, index: nat)
  {
    IsWord(tokens, index, "macro_rules") && IsPunct(tokens, index + 1, '!') &&
    IsIdent(tokens, index + 2) && IsGroup(tokens, index + 3)
  }

  predicate IsRuleAt(tokens: seq<Token>, i: nat)
  {
    IsGroup(tokens, i) && IsPunct(tokens, i + 1, '=') && IsPunct(tokens, i + 2, '>') && IsGroup(tokens, i + 3)
  }

  /** The place after the rule at `i` and its optional `;`. */
  function AfterRule(tokens: seq<Token>, i: nat): nat
  {
    if IsPunct(tokens, i + 4, ';') then i + 5 else i + 4
  }

  /** The places of the rules from `i`, or none when the body is not a list of rules. */
  function RulesFrom(tokens: seq<Token>, i: nat): (rules: Option<seq<nat>>)
    ensures rules.Some? ==> forall k :: 0 <= k < |rules.value| ==>
            i <= rules.value[k] && IsRuleAt(tokens, rules.value[k])
    decreases |tokens| - i
  {
    if i >= |tokens| then Some([])
    else if !IsRuleAt(tokens, i) then None
    else
      var rest := RulesFrom(tokens, AfterRule(tokens, i));
      if rest.None? then None else Some([i] + rest.value)
  }

  function RulesOf(body: seq<Token>): (rules: Option<seq<nat>>)
    ensures rules.Some? ==> forall k :: 0 <= k < |rules.value| ==> IsRuleAt(body, rules.value[k])
  {
    RulesFrom(body, 0)
  }

  // ----- the meta fragments a matcher binds

  predicate FollowsAHash(tokens: seq<Token>, index: nat)
    requires index <= |tokens|
  {
    if index >= 2 && IsPunct(tokens, index - 1, '!') then IsPunct(tokens, index - 2, '#')
    else index >= 1 && IsPunct(tokens, index - 1, '#')
  }

  function MetaBinding(group: Token): set<string>
    requires group.Group?
  {
    var tokens := group.stream;
    if |tokens| == 4 && IsPunct(tokens, 0, '$') && tokens[1].Ident? && IsPunct(tokens, 2, ':') && tokens[3].Ident? &&
       group.delimiter == Bracket && tokens[3].text == "meta"
    then {Plain(tokens[1].text)} else {}
  }

  function Bindings(tokens: seq<Token>): Bound { BindingsIn(tokens, |tokens|) }

  function BindingsIn(tokens: seq<Token>, n: nat): Bound
    requires n <= |tokens|
    decreases Size(tokens), n
  {
    if n == 0 then {}
    else
      BindingsIn(tokens, n - 1) +
      (match tokens[n - 1]
       case Group(_, stream, _) =>
         SizeAt(tokens, n - 1);
         (if FollowsAHash(tokens, n - 1) then MetaBinding(tokens[n - 1]) else {}) + BindingsIn(stream, |stream|)
       case _ => {})
  }

  // ----- streams by their place

  /** The indices of the groups that lead from `tokens` down to one stream inside it. */
  ghost predicate IsPath(tokens: seq<Token>, path: seq<nat>)
    decreases |path|
  {
    path == [] || (IsGroup(tokens, path[0]) && IsPath(tokens[path[0]].stream, path[1..]))
  }

  ghost function StreamAt(tokens: seq<Token>, path: seq<nat>): seq<Token>
    requires IsPath(tokens, path)
    decreases |path|
  {
    if path == [] then tokens else StreamAt(tokens[path[0]].stream, path[1..])
  }

  lemma PathDown(tokens: seq<Token>, i: nat, path: seq<nat>)
    requires IsGroup(tokens, i) && IsPath(tokens[i].stream, path)
    ensures IsPath(tokens, [i] + path) && StreamAt(tokens, [i] + path) == StreamAt(tokens[i].stream, path)
  {
    assert ([i] + path)[1..] == path;
  }
}
