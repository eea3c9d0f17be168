/** Whether a symbol's name holds the query (crates/app/src/find.rs): a short ASCII name is tested once,
    in a fixed buffer that is filled and lowered in place, and every other name by its two lowered forms. */
module NameMatch {
  import opened Options
  import opened Find
  import Globs

  const SHORT_QUALNAME: nat := 128

  predicate Ascii(text: string) { forall i :: 0 <= i < |text| ==> text[i] < 128 as char }

  function LowerChar(c: char): char
  {
    if 'A' <= c <= 'Z' then c - 'A' + 'a' else c
  }

  const UPPER := "ABCDEFGHIJKLMNOPQRSTUVWXYZ"
  const LOWER := "abcdefghijklmnopqrstuvwxyz"

  /** Lowering changes the twenty-six capital letters, each to its small one, and nothing else. */
  lemma LowersLetters(c: char)
    ensures forall i :: 0 <= i < 26 ==> LowerChar(UPPER[i]) == LOWER[i]
    ensures c !in UPPER ==> LowerChar(c) == c
  {
    assert forall i :: 0 <= i < 26 ==> UPPER[i] == 'A' + i as char && LOWER[i] == 'a' + i as char;
    if 'A' <= c <= 'Z' {
      var i := c as int - 'A' as int;
      assert UPPER[i] == c;
    }
  }

  function AsciiLower(text: string): string
  {
    seq(|text|, i requires 0 <= i < |text| => LowerChar(text[i]))
  }

  ghost predicate Contains(text: string, needle: string)
  {
    exists at: nat :: Globs.OccursAt(needle, text, at)
  }

  /** Lowering takes an ASCII text character by character, whatever it does to other texts. */
  ghost predicate LowersAscii(lower: string -> string)
  {
    forall text :: Ascii(text) ==> lower(text) == AsciiLower(text)
  }

  /** The definition: the lowered name or the lowered qualified name holds the needle. */
  ghost predicate Named(symbol: Symbol, needle: string, lower: string -> string)
  {
    var qualified := if symbol.parent == "" then symbol.name else symbol.parent + ['.'] + symbol.name;
    Contains(lower(symbol.name), needle) || Contains(lower(qualified), needle)
  }

  lemma SuffixContains(head: string, tail: string, needle: string)
    requires Contains(tail, needle)
    ensures Contains(head + tail, needle)
  {
    var at: nat :| Globs.OccursAt(needle, tail, at);
    assert (head + tail)[|head| + at..|head| + at + |needle|] == tail[at..at + |needle|];
    assert Globs.OccursAt(needle, head + tail, |head| + at);
  }

  lemma LowerConcat(a: string, b: string)
    ensures AsciiLower(a + b) == AsciiLower(a) + AsciiLower(b)
  {
  }

  /** The name ends the qualified name, so one test of the lowered qualified name covers both. */
  lemma OneTestCoversBoth(symbol: Symbol, needle: string, lower: string -> string)
    requires LowersAscii(lower) && Ascii(Qualname(symbol))
    ensures Named(symbol, needle, lower) <==> Contains(AsciiLower(Qualname(symbol)), needle)
  {
    var name, head := symbol.name, if symbol.parent == "" then "" else symbol.parent + ".";
    assert Qualname(symbol) == head + name;
    AsciiQualname(symbol);
    LowerConcat(head, name);
    if Contains(AsciiLower(name), needle) {
      SuffixContains(AsciiLower(head), AsciiLower(name), needle);
    }
  }

  method CopyInto(buffer: array<char>, start: nat, text: string)
    requires start + |text| <= buffer.Length
    modifies buffer
    ensures buffer[start..start + |text|] == text
    ensures buffer[..start] == old(buffer[..start])
  {
    for i := 0 to |text|
      invariant buffer[start..start + i] == text[..i]
      invariant buffer[..start] == old(buffer[..start])
    {
      buffer[start + i] := text[i];
    }
  }

  method LowerInPlace(buffer: array<char>, length: nat)
    requires length <= buffer.Length
    modifies buffer
    ensures buffer[..length] == AsciiLower(old(buffer[..length]))
  {
    for i := 0 to length
      invariant forall k :: 0 <= k < i ==> buffer[k] == LowerChar(old(buffer[k]))
      invariant forall k :: i <= k < buffer.Length ==> buffer[k] == old(buffer[k])
    {
      buffer[i] := LowerChar(buffer[i]);
    }
  }

  method IsAscii(text: string) returns (ascii: bool)
    ensures ascii <==> Ascii(text)
  {
    for i := 0 to |text|
      invariant forall k :: 0 <= k < i ==> text[k] < 128 as char
    {
      if text[i] >= 128 as char {
        return false;
      }
    }
    return true;
  }

  /** The test of a short ASCII name, or nothing for a name that is long or not ASCII. */
  method ShortAsciiHolds(symbol: Symbol, needle: string) returns (held: Option<bool>)
    ensures held.None? <==> |Qualname(symbol)| > 128 || !Ascii(symbol.parent) || !Ascii(symbol.name)
    ensures held.Some? ==> (held.value <==> Contains(AsciiLower(Qualname(symbol)), needle))
  {
    var parent, name := symbol.parent, symbol.name;
    var dot := if parent == "" then "" else ".";
    var length := |parent| + |dot| + |name|;
    var parentAscii := IsAscii(parent);
    var nameAscii := IsAscii(name);
    if length > SHORT_QUALNAME || !parentAscii || !nameAscii {
      return None;
    }
    var buffer := new char[SHORT_QUALNAME](_ => '\0');
    CopyInto(buffer, 0, parent);
    CopyInto(buffer, |parent|, dot);
    CopyInto(buffer, |parent| + |dot|, name);
    Joined(buffer[..], parent, dot, name);
    assert buffer[..length] == buffer[..][..length];
    LowerInPlace(buffer, length);
    var at := Globs.Find(buffer[..length], needle);
    held := Some(at.Some?);
  }

  lemma Joined(buffer: seq<char>, parent: string, dot: string, name: string)
    requires |parent| + |dot| + |name| <= |buffer|
    requires buffer[..|parent|] == parent
    requires buffer[|parent|..|parent| + |dot|] == dot
    requires buffer[|parent| + |dot|..|parent| + |dot| + |name|] == name
    ensures buffer[..|parent| + |dot| + |name|] == parent + dot + name
  {
  }

  lemma AsciiQualname(symbol: Symbol)
    ensures Ascii(Qualname(symbol)) <==> Ascii(symbol.parent) && Ascii(symbol.name)
  {
    var parent, name, qualname := symbol.parent, symbol.name, Qualname(symbol);
    if parent != "" {
      assert forall i :: 0 <= i < |parent| ==> qualname[i] == parent[i];
      assert qualname[|parent|] == '.';
      assert forall i :: 0 <= i < |name| ==> qualname[|parent| + 1 + i] == name[i];
      assert forall i :: |parent| + 1 <= i < |qualname| ==> qualname[i] == name[i - |parent| - 1];
    }
  }

  /** The match of one symbol: its kind, when one is asked for, and its lowered name or qualified name.
      The fast test gives what the definition says for every name. */
  method Matches(symbol: Symbol, needle: string, kind: Option<SymbolKind>, lower: string -> string) returns (ok: bool)
    requires LowersAscii(lower)
    ensures ok <==> (kind.Some? ==> kind.value == symbol.kind) && Named(symbol, needle, lower)
  {
    if kind.Some? && kind.value != symbol.kind {
      return false;
    }
    var held := ShortAsciiHolds(symbol, needle);
    AsciiQualname(symbol);
    if held.Some? {
      OneTestCoversBoth(symbol, needle, lower);
      return held.value;
    }
    var inName := Globs.Find(lower(symbol.name), needle);
    var inQualname := Globs.Find(lower(Qualname(symbol)), needle);
    ok := inName.Some? || inQualname.Some?;
  }
}
