/** The byte tests of the trailer parser (xtask/src/policy.rs) by the characters they stand for: the words
    of a commit object, the classes of bytes, and UTF-8 text by the encoding of its characters. */
module TrailerForms {
  import opened Options
  import opened Text
  import opened Trailers

  // ----- words and classes of bytes

  ghost predicate Ascii(text: string) { forall i :: 0 <= i < |text| ==> text[i] as int < 0x80 }

  ghost function BytesOf(text: string): Bytes
    requires Ascii(text)
  {
    seq(|text|, i requires 0 <= i < |text| => text[i] as int as Byte)
  }

  /** The trailer and the header that the parser looks for, as text. */
  lemma WordsAsText(path: Bytes)
    ensures TrailerLine(path) == BytesOf("Policy-Change: ") + path
    ensures ENCODING == BytesOf("encoding")
  {
    assert BytesOf("Policy-Change: ") == TRAILER + [COLON, SPACE];
  }

  ghost predicate StartsWith(line: Bytes, word: string)
    requires Ascii(word)
  {
    |word| <= |line| && line[..|word|] == BytesOf(word)
  }

  /** A header names an encoding when one of its lines starts with that word. */
  lemma EncodedByWord(header: seq<Bytes>)
    ensures Encoded(header) <==> exists line :: line in header && StartsWith(line, "encoding")
  {
    assert ENCODING == BytesOf("encoding");
    forall i | 0 <= i < |header| ensures ENCODING <= header[i] <==> StartsWith(header[i], "encoding") {
      assert ENCODING <= header[i] <==> |ENCODING| <= |header[i]| && header[i][..|ENCODING|] == ENCODING;
    }
    assert forall i :: 0 <= i < |header| ==> header[i] in header;
  }

  const DIGITS := "0123456789"
  const CAPITALS := "ABCDEFGHIJKLMNOPQRSTUVWXYZ"
  const SMALLS := "abcdefghijklmnopqrstuvwxyz"

  /** The letters run from `first` on without a gap. */
  ghost predicate Runs(letters: string, first: char)
  {
    forall i :: 0 <= i < |letters| ==> letters[i] as int == first as int + i
  }

  lemma InRun(letters: string, first: char, c: char)
    requires Runs(letters, first)
    ensures c in letters <==> first as int <= c as int < first as int + |letters|
  {
    if first as int <= c as int < first as int + |letters| {
      assert letters[c as int - first as int] == c;
    }
  }

  lemma AlphabetRuns()
    ensures Runs(DIGITS, '0') && Runs(CAPITALS, 'A') && Runs(SMALLS, 'a')
    ensures |DIGITS| == 10 && |CAPITALS| == |SMALLS| == 26
  {
  }

  ghost predicate WordChar(c: char) { c in DIGITS || c in CAPITALS || c in SMALLS || c == '-' }

  lemma TokenByChar(b: Byte)
    ensures IsToken(b) <==> WordChar(b as char)
  {
    AlphabetRuns();
    InRun(DIGITS, '0', b as char);
    InRun(CAPITALS, 'A', b as char);
    InRun(SMALLS, 'a', b as char);
  }

  /** A blank line holds nothing but spaces, tabs, line feeds, form feeds and carriage returns. */
  lemma BlankByChar(line: Bytes)
    ensures Blank(line) <==> forall b :: b in line ==> b as char in [' ', '\t', '\n', '\U{000C}', '\r']
  {
    assert forall i :: 0 <= i < |line| ==> line[i] in line;
    assert forall b: Byte :: IsWhitespace(b) <==> b as char in [' ', '\t', '\n', '\U{000C}', '\r'];
  }

  /** The header ends at the first two line feeds in a row. */
  lemma EmptyLine(commit: Bytes, i: nat)
    ensures BlankAt(commit, i) <==> i + 2 <= |commit| && commit[i..i + 2] == BytesOf("\n\n")
  {
    assert i + 2 <= |commit| ==> commit[i..i + 2] == [commit[i], commit[i + 1]];
    assert BytesOf("\n\n") == [10, 10];
  }

  /** A word of letters, digits and dashes, then spaces or tabs, then a colon. */
  ghost predicate TrailerAt(line: Bytes, n: nat, m: nat)
  {
    && 0 < n <= m < |line|
    && (forall i :: 0 <= i < n ==> WordChar(line[i] as char))
    && (forall i :: n <= i < m ==> line[i] as char in [' ', '\t'])
    && line[m] as char == ':'
  }

  lemma {:induction false} TokenLengthIs(line: Bytes)
    ensures var n := TokenLength(line);
            && (forall i :: 0 <= i < n ==> IsToken(line[i]))
            && (n < |line| ==> !IsToken(line[n]))
  {
    if line == [] || !IsToken(line[0]) {
    } else {
      TokenLengthIs(line[1..]);
      assert forall i :: 0 < i < |line| ==> line[i] == line[1..][i - 1];
    }
  }

  lemma {:induction false} BlankLengthIs(line: Bytes)
    ensures var n := BlankLength(line);
            && (forall i :: 0 <= i < n ==> line[i] == SPACE || line[i] == TAB)
            && (n < |line| ==> line[n] != SPACE && line[n] != TAB)
  {
    if line == [] || !(line[0] == SPACE || line[0] == TAB) {
    } else {
      BlankLengthIs(line[1..]);
      assert forall i :: 0 < i < |line| ==> line[i] == line[1..][i - 1];
    }
  }

  ghost predicate WordThenColon(line: Bytes, n: nat, m: nat)
  {
    && 0 < n <= m < |line|
    && (forall i :: 0 <= i < n ==> IsToken(line[i]))
    && (forall i :: n <= i < m ==> line[i] == 32 || line[i] == 9)
    && line[m] == 58
  }

  lemma TrailerWord(line: Bytes)
    ensures IsTrailer(line) <==> exists n: nat, m: nat :: WordThenColon(line, n, m)
  {
    var n := TokenLength(line);
    var rest := line[n..];
    var m := n + BlankLength(rest);
    TokenLengthIs(line);
    BlankLengthIs(rest);
    assert forall i :: n <= i < |line| ==> line[i] == rest[i - n];
    if IsTrailer(line) { assert WordThenColon(line, n, m); }
    forall p: nat, q: nat | WordThenColon(line, p, q) ensures IsTrailer(line) {
      assert !IsToken(line[p]);
      assert n == p;
      assert m == q;
    }
  }

  lemma WordByChar(line: Bytes, n: nat, m: nat)
    ensures WordThenColon(line, n, m) <==> TrailerAt(line, n, m)
  {
    forall i | 0 <= i < |line| ensures IsToken(line[i]) <==> WordChar(line[i] as char) { TokenByChar(line[i]); }
  }

  /** A trailer line is such a word before a colon. */
  lemma TrailerExactly(line: Bytes)
    ensures IsTrailer(line) <==> exists n: nat, m: nat :: TrailerAt(line, n, m)
  {
    TrailerWord(line);
    forall n: nat, m: nat ensures WordThenColon(line, n, m) <==> TrailerAt(line, n, m) { WordByChar(line, n, m); }
  }

  // ----- what is printed

  /** A header is well formed when none of its lines but the first is empty, none starts with `encoding`
      and it holds no NUL. */
  ghost predicate HeaderLines(header: Bytes)
  {
    && 0 !in header
    && (forall i :: 1 <= i < |Split(header, 10)| ==> |Split(header, 10)[i]| > 0)
    && (forall line :: line in Split(header, 10) ==> !StartsWith(line, "encoding"))
  }

  ghost predicate NoEmptyLine(header: Bytes)
  {
    (forall i :: 0 <= i < |header| - 1 ==> !BlankAt(header, i)) && (header != [] ==> header[|header| - 1] != 10)
  }

  lemma {:induction false} EmptyLines(header: Bytes)
    ensures NoEmptyLine(header) <==> forall i :: 1 <= i < |Split(header, 10)| ==> |Split(header, 10)[i]| > 0
  {
    if header == [] {
    } else {
      var rest := header[1..];
      var later, lines := Split(rest, 10), Split(header, 10);
      EmptyLines(rest);
      FirstLine(rest);
      assert forall i :: 0 <= i < |rest| - 1 ==> (BlankAt(rest, i) <==> BlankAt(header, i + 1));
      assert NoEmptyLine(header) <==> NoEmptyLine(rest) && (header[0] == 10 ==> rest != [] && rest[0] != 10) by {
        if NoEmptyLine(header) && rest != [] {
          assert !BlankAt(header, 0);
          forall i | 0 <= i < |rest| - 1 ensures !BlankAt(rest, i) { assert !BlankAt(header, i + 1); }
        }
        if NoEmptyLine(rest) {
          forall i | 1 <= i < |header| - 1 ensures !BlankAt(header, i) { assert !BlankAt(rest, i - 1); }
        }
      }
      if header[0] == 10 {
        assert lines == [[]] + later;
        assert lines[1] == later[0];
        assert forall i :: 1 <= i < |later| ==> lines[i + 1] == later[i];
      } else {
        assert forall i :: 1 <= i < |later| ==> lines[i] == later[i];
      }
    }
  }

  lemma FirstLine(rest: Bytes)
    ensures |Split(rest, 10)[0]| > 0 <==> rest != [] && rest[0] != 10
  {
  }

  lemma HeaderByLines(header: Bytes)
    ensures HeaderOk(header) <==> HeaderLines(header)
  {
    EmptyLines(header);
    EncodedByWord(Split(header, 10));
  }

  /** A title is one line with something else than blanks in it. */
  lemma TitleByChar(title: Bytes)
    ensures TitleOk(title) <==>
            && 0 !in title && 10 !in title
            && exists b :: b in title && b as char !in [' ', '\t', '\n', '\U{000C}', '\r']
  {
    BlankByChar(title);
  }

  // ----- text

  /** A Unicode scalar value. */
  type Scalar = c: nat | c < 0xD800 || 0xE000 <= c < 0x11_0000

  /** The bytes of one character, by section 3 of RFC 3629: its bits in groups of six. */
  ghost function EncodeOne(c: Scalar): Bytes
  {
    if c < 0x80 then [c]
    else if c < 0x800 then [0xC0 + c / 64, 0x80 + c % 64]
    else if c < 0x1_0000 then [0xE0 + c / 64 / 64, 0x80 + c / 64 % 64, 0x80 + c % 64]
    else [0xF0 + c / 64 / 64 / 64, 0x80 + c / 64 / 64 % 64, 0x80 + c / 64 % 64, 0x80 + c % 64]
  }

  ghost function Encode(text: seq<Scalar>): Bytes
  {
    if text == [] then [] else EncodeOne(text[0]) + Encode(text[1..])
  }

  lemma {:induction false} EncodedIsUtf8(text: seq<Scalar>)
    ensures Utf8(Encode(text))
  {
    if text == [] {
    } else {
      EncodedIsUtf8(text[1..]);
      EncodedOne(text[0], Encode(text[1..]));
    }
  }

  lemma EncodedOne(c: Scalar, rest: Bytes)
    ensures Utf8(EncodeOne(c) + rest) <==> Utf8(rest)
  {
    var one := EncodeOne(c);
    var s := one + rest;
    assert s[|one|..] == rest;
    assert forall i :: 0 <= i < |one| ==> s[i] == one[i];
    assert c < 0x80 || c < 0x800 || c < 0x1_0000 || c < 0x11_0000;
  }

  /** The character that a text starts with. */
  ghost function FirstOf(s: Bytes): (c: int)
    requires s != [] && Utf8(s)
  {
    var first: int := s[0];
    if first < 0x80 then first
    else
      var second: int := s[1];
      if first <= 0xDF then (first - 0xC0) * 64 + (second - 0x80)
      else
        var third: int := s[2];
        if first <= 0xEF then ((first - 0xE0) * 64 + (second - 0x80)) * 64 + (third - 0x80)
        else
          var fourth: int := s[3];
          (((first - 0xF0) * 64 + (second - 0x80)) * 64 + (third - 0x80)) * 64 + (fourth - 0x80)
  }

  lemma Sixes(high: nat, low: nat)
    requires low < 64
    ensures (high * 64 + low) / 64 == high && (high * 64 + low) % 64 == low
  {
  }

  lemma DecodeTwo(a: int, b: int)
    requires 0xC2 <= a <= 0xDF && 0x80 <= b < 0xC0
    ensures var c := (a - 0xC0) * 64 + (b - 0x80); 0x80 <= c < 0x800 && EncodeOne(c) == [a, b]
  {
    Sixes(a - 0xC0, b - 0x80);
  }

  lemma DecodeThree(a: int, b: int, d: int)
    requires 0xE0 <= a <= 0xEF && 0x80 <= b < 0xC0 && 0x80 <= d < 0xC0
    requires (a == 0xE0 ==> b >= 0xA0) && (a == 0xED ==> b < 0xA0)
    ensures var c := ((a - 0xE0) * 64 + (b - 0x80)) * 64 + (d - 0x80);
            0x800 <= c < 0x1_0000 && (c < 0xD800 || 0xE000 <= c) && EncodeOne(c) == [a, b, d]
  {
    Sixes(a - 0xE0, b - 0x80);
    Sixes((a - 0xE0) * 64 + (b - 0x80), d - 0x80);
  }

  lemma DecodeFour(a: int, b: int, d: int, e: int)
    requires 0xF0 <= a <= 0xF4 && 0x80 <= b < 0xC0 && 0x80 <= d < 0xC0 && 0x80 <= e < 0xC0
    requires (a == 0xF0 ==> b >= 0x90) && (a == 0xF4 ==> b < 0x90)
    ensures var c := (((a - 0xF0) * 64 + (b - 0x80)) * 64 + (d - 0x80)) * 64 + (e - 0x80);
            0x1_0000 <= c < 0x11_0000 && EncodeOne(c) == [a, b, d, e]
  {
    var high := (a - 0xF0) * 64 + (b - 0x80);
    Sixes(a - 0xF0, b - 0x80);
    Sixes(high, d - 0x80);
    Sixes(high * 64 + (d - 0x80), e - 0x80);
  }

  ghost predicate IsScalar(c: int) { 0 <= c < 0xD800 || 0xE000 <= c < 0x11_0000 }

  lemma DecodeOne(s: Bytes)
    requires s != [] && Utf8(s)
    ensures IsScalar(FirstOf(s))
    ensures var one := EncodeOne(FirstOf(s)); |one| > 0 && one <= s && Utf8(s[|one|..])
  {
    if s[0] < 0x80 {
    } else if s[0] <= 0xDF {
      DecodeTwo(s[0], s[1]);
      assert s[..2] == [s[0], s[1]];
    } else if s[0] <= 0xEF {
      DecodeThree(s[0], s[1], s[2]);
      assert s[..3] == [s[0], s[1], s[2]];
    } else {
      DecodeFour(s[0], s[1], s[2], s[3]);
      assert s[..4] == [s[0], s[1], s[2], s[3]];
    }
  }

  lemma {:induction false} Decoded(s: Bytes) returns (text: seq<Scalar>)
    requires Utf8(s)
    ensures Encode(text) == s
  {
    if s == [] {
      text := [];
    } else {
      DecodeOne(s);
      var c: Scalar := FirstOf(s);
      var rest := Decoded(s[|EncodeOne(c)|..]);
      text := [c] + rest;
    }
  }

  /** The test accepts exactly the encodings of texts. */
  lemma Utf8Exactly(s: Bytes)
    ensures Utf8(s) <==> exists text :: Encode(text) == s
  {
    if Utf8(s) { var text := Decoded(s); }
    forall text | Encode(text) == s ensures Utf8(s) { EncodedIsUtf8(text); }
  }

  ghost predicate IsControl(c: Scalar) { c < 0x20 || 0x7F <= c <= 0x9F }

  ghost predicate NoControl(text: seq<Scalar>) { forall i :: 0 <= i < |text| ==> !IsControl(text[i]) }

  lemma {:induction false} ControlsKept(text: seq<Scalar>)
    ensures HasControl(Encode(text)) <==> !NoControl(text)
  {
    if text == [] {
    } else {
      ControlsKept(text[1..]);
      ControlOne(text[0], Encode(text[1..]));
    }
  }

  lemma ControlOne(c: Scalar, rest: Bytes)
    ensures HasControl(EncodeOne(c) + rest) <==> IsControl(c) || HasControl(rest)
  {
    var one := EncodeOne(c);
    var s := one + rest;
    ControlFound(s);
    ControlFound(rest);
    forall i | 0 <= i < |rest| ensures ControlAt(rest, i) <==> ControlAt(s, |one| + i) {
      ControlShift(one, rest, i);
    }
    ControlStarts(c);
    forall i | 0 <= i < |one| ensures ControlAt(s, i) ==> IsControl(c) {
      if ControlAt(s, i) { ControlInside(c, s, i); }
    }
    if IsControl(c) { assert ControlAt(s, 0); }
    if i :| 0 <= i < |s| && ControlAt(s, i) {
      assert i >= |one| ==> ControlAt(s, |one| + (i - |one|));
    }
  }

  lemma ControlShift(one: Bytes, rest: Bytes, i: nat)
    requires i < |rest|
    ensures ControlAt(rest, i) <==> ControlAt(one + rest, |one| + i)
  {
    var s := one + rest;
    assert s[|one| + i] == rest[i];
    assert i + 1 < |rest| ==> s[|one| + i + 1] == rest[i + 1];
  }

  lemma ControlStarts(c: Scalar)
    ensures var one := EncodeOne(c);
            IsControl(c) ==> one[0] < 0x20 || one[0] == 0x7F || (|one| == 2 && one[0] == 0xC2 && 0x80 <= one[1] < 0xA0)
  {
  }

  ghost predicate ControlAt(s: Bytes, i: int)
    requires 0 <= i < |s|
  {
    s[i] < 0x20 || s[i] == 0x7F || (s[i] == 0xC2 && i + 1 < |s| && 0x80 <= s[i + 1] < 0xA0)
  }

  lemma ControlFound(s: Bytes)
    ensures HasControl(s) <==> exists i :: 0 <= i < |s| && ControlAt(s, i)
  {
    if HasControl(s) {
      var i :| 0 <= i < |s| &&
        (s[i] < 0x20 || s[i] == 0x7F || (s[i] == 0xC2 && i + 1 < |s| && 0x80 <= s[i + 1] < 0xA0));
      assert ControlAt(s, i);
    }
  }

  lemma ControlInside(c: Scalar, s: Bytes, i: nat)
    requires i < |EncodeOne(c)| && EncodeOne(c) <= s && ControlAt(s, i)
    ensures IsControl(c)
  {
    var one := EncodeOne(c);
    assert s[i] == one[i];
  }

  /** An approved path is a text of one or more characters, none of them a control character. */
  lemma CleanPathExactly(path: Bytes)
    ensures CleanPath(path) <==> exists text :: text != [] && NoControl(text) && Encode(text) == path
  {
    if CleanPath(path) {
      var text := Decoded(path);
      ControlsKept(text);
    }
    forall text | text != [] && NoControl(text) && Encode(text) == path ensures CleanPath(path) {
      EncodedIsUtf8(text);
      ControlsKept(text);
      assert |EncodeOne(text[0])| > 0;
    }
  }
}
