/** The trailer parser of the policy gate (xtask/src/policy.rs), on raw commit objects, with the
    printer it inverts. */
module Trailers {
  import opened Options
  import opened Text

  type Byte = b: int | 0 <= b < 256

  type Bytes = seq<Byte>

  const NUL: Byte := 0
  const TAB: Byte := 9
  const NEWLINE: Byte := 10
  const SPACE: Byte := 32
  const DASH: Byte := 45
  const COLON: Byte := 58

  // "Policy-Change" and "encoding", in bytes.
  const TRAILER: Bytes := [80, 111, 108, 105, 99, 121, 45, 67, 104, 97, 110, 103, 101]
  const ENCODING: Bytes := [101, 110, 99, 111, 100, 105, 110, 103]

  // ----- the message that git shows

  predicate BlankAt(commit: Bytes, i: int)
  {
    0 <= i < |commit| - 1 && commit[i] == NEWLINE && commit[i + 1] == NEWLINE
  }

  /** The first empty line at or after `i`, which ends the header. */
  function HeaderEnd(commit: Bytes, i: nat): (end: Option<nat>)
    requires i <= |commit|
    ensures end.Some? ==> i <= end.value && BlankAt(commit, end.value)
    ensures end.Some? ==> forall k :: i <= k < end.value ==> !BlankAt(commit, k)
    ensures end.None? ==> forall k :: i <= k ==> !BlankAt(commit, k)
    decreases |commit| - i
  {
    if BlankAt(commit, i) then Some(i)
    else if i == |commit| then None
    else HeaderEnd(commit, i + 1)
  }

  /** The bytes after the header, unless a NUL or an `encoding` header makes git show others. */
  function ShownMessage(commit: Bytes): Option<Bytes>
  {
    if NUL in commit then None
    else
      var end := HeaderEnd(commit, 0);
      if end.None? || Encoded(Split(commit[..end.value], NEWLINE)) then None
      else Some(commit[end.value + 2..])
  }

  predicate Encoded(header: seq<Bytes>)
  {
    exists i :: 0 <= i < |header| && ENCODING <= header[i]
  }

  // ----- paragraphs

  predicate IsWhitespace(b: Byte) { b == 9 || b == 10 || b == 12 || b == 13 || b == 32 }

  predicate Blank(line: Bytes) { forall i :: 0 <= i < |line| ==> IsWhitespace(line[i]) }

  /** The runs of lines between blank lines, empty runs included. */
  function Runs(lines: seq<Bytes>): (runs: seq<seq<Bytes>>)
    ensures |runs| >= 1
  {
    if lines == [] then [[]]
    else
      var rest := Runs(lines[1..]);
      if Blank(lines[0]) then [[]] + rest else [[lines[0]] + rest[0]] + rest[1..]
  }

  function Paragraphs(lines: seq<Bytes>): seq<seq<Bytes>> { NonEmpty(Runs(lines)) }

  // ----- trailer lines

  predicate IsToken(b: Byte)
  {
    48 <= b <= 57 || 65 <= b <= 90 || 97 <= b <= 122 || b == DASH
  }

  function TokenLength(line: Bytes): (n: nat)
    ensures n <= |line|
  {
    if line == [] || !IsToken(line[0]) then 0 else 1 + TokenLength(line[1..])
  }

  function BlankLength(line: Bytes): (n: nat)
    ensures n <= |line|
  {
    if line == [] || !(line[0] == SPACE || line[0] == TAB) then 0 else 1 + BlankLength(line[1..])
  }

  /** A token, optional blanks, then a colon. */
  predicate IsTrailer(line: Bytes)
  {
    var rest := line[TokenLength(line)..];
    TokenLength(line) > 0 && BlankLength(rest) < |rest| && rest[BlankLength(rest)] == COLON
  }

  predicate Tail(b: Byte) { 0x80 <= b < 0xC0 }

  /** The byte strings that are UTF-8 text, by the table of section 4 of RFC 3629. */
  predicate Utf8(s: Bytes)
  {
    if s == [] then true
    else if s[0] < 0x80 then Utf8(s[1..])
    else if 0xC2 <= s[0] <= 0xDF then |s| >= 2 && Tail(s[1]) && Utf8(s[2..])
    else if 0xE0 <= s[0] <= 0xEF then
      && |s| >= 3 && Tail(s[1]) && Tail(s[2])
      && (s[0] == 0xE0 ==> s[1] >= 0xA0) && (s[0] == 0xED ==> s[1] < 0xA0)
      && Utf8(s[3..])
    else if 0xF0 <= s[0] <= 0xF4 then
      && |s| >= 4 && Tail(s[1]) && Tail(s[2]) && Tail(s[3])
      && (s[0] == 0xF0 ==> s[1] >= 0x90) && (s[0] == 0xF4 ==> s[1] < 0x90)
      && Utf8(s[4..])
    else false
  }

  /** A control character of UTF-8 text: C0, DEL, or C1, which the bytes C2 80 to C2 9F spell. */
  predicate HasControl(s: Bytes)
  {
    exists i :: 0 <= i < |s| &&
      (s[i] < 0x20 || s[i] == 0x7F || (s[i] == 0xC2 && i + 1 < |s| && 0x80 <= s[i + 1] < 0xA0))
  }

  predicate CleanPath(path: Bytes) { path != [] && Utf8(path) && !HasControl(path) }

  function TrailerLine(path: Bytes): Bytes { TRAILER + [COLON, SPACE] + path }

  /** The path that a line approves. */
  function Approval(line: Bytes): Option<Bytes>
  {
    if !Utf8(line) || !(TRAILER <= line) then None
    else
      var rest := line[|TRAILER|..];
      if !([COLON, SPACE] <= rest) then None
      else
        var path := rest[2..];
        if path != [] && !HasControl(path) then Some(path) else None
  }

  function Approvals(lines: seq<Bytes>): seq<Bytes>
  {
    if lines == [] then []
    else
      var first := Approval(lines[0]);
      (if first.Some? then [first.value] else []) + Approvals(lines[1..])
  }

  predicate AllTrailers(lines: seq<Bytes>) { forall i :: 0 <= i < |lines| ==> IsTrailer(lines[i]) }

  /** The paths a commit approves: the trailers of an all-trailer last paragraph that is not the title. */
  function TrailersOf(commit: Bytes): seq<Bytes>
  {
    var message := ShownMessage(commit);
    if message.None? then []
    else
      var paragraphs := Paragraphs(Split(message.value, NEWLINE));
      if |paragraphs| >= 2 && AllTrailers(paragraphs[|paragraphs| - 1])
      then Approvals(paragraphs[|paragraphs| - 1]) else []
  }

  // ----- lines and approvals

  lemma {:induction false} AsciiPrefix(prefix: Bytes, s: Bytes)
    requires forall i :: 0 <= i < |prefix| ==> prefix[i] < 0x80
    ensures Utf8(prefix + s) <==> Utf8(s)
  {
    if prefix == [] {
      assert prefix + s == s;
    } else {
      AsciiPrefix(prefix[1..], s);
      assert (prefix + s)[1..] == prefix[1..] + s;
    }
  }

  /** A line approves a path exactly when it is that path's trailer line. */
  lemma ApprovalExact(line: Bytes, path: Bytes)
    ensures Approval(line) == Some(path) <==> line == TrailerLine(path) && CleanPath(path)
  {
    var prefix := TRAILER + [COLON, SPACE];
    assert forall i :: 0 <= i < |prefix| ==> prefix[i] < 0x80;
    AsciiPrefix(prefix, path);
    if Approval(line) == Some(path) {
      assert line == TRAILER + line[|TRAILER|..];
      assert line[|TRAILER|..] == [COLON, SPACE] + path;
      assert line == prefix + path;
    }
    if line == TrailerLine(path) && CleanPath(path) {
      assert line == prefix + path;
      assert line[|TRAILER|..] == [COLON, SPACE] + path;
    }
  }

  lemma {:induction false} TokenThenColon(token: Bytes, rest: Bytes)
    requires forall i :: 0 <= i < |token| ==> IsToken(token[i])
    ensures TokenLength(token + [COLON] + rest) == |token|
  {
    var line := token + [COLON] + rest;
    if token == [] {
    } else {
      TokenThenColon(token[1..], rest);
      assert line[1..] == token[1..] + [COLON] + rest;
    }
  }

  lemma TrailerLineIsTrailer(path: Bytes)
    ensures IsTrailer(TrailerLine(path)) && !Blank(TrailerLine(path))
  {
    var line := TrailerLine(path);
    TokenThenColon(TRAILER, [SPACE] + path);
    assert line == TRAILER + [COLON] + ([SPACE] + path);
    assert line[|TRAILER|..][0] == COLON;
    assert line[0] == 80;
  }

  lemma CleanLine(path: Bytes)
    requires CleanPath(path)
    ensures NEWLINE !in TrailerLine(path) && NUL !in TrailerLine(path)
  {
  }

  // ----- printing

  function LinesFor(paths: seq<Bytes>): seq<Bytes>
  {
    seq(|paths|, i requires 0 <= i < |paths| => TrailerLine(paths[i]))
  }

  /** The commit object that approves `paths`: the header, the title, and a paragraph of trailers. */
  function Print(header: Bytes, title: Bytes, paths: seq<Bytes>): Bytes
  {
    header + [NEWLINE, NEWLINE] + PrintMessage(title, paths)
  }

  function PrintMessage(title: Bytes, paths: seq<Bytes>): Bytes
  {
    title + [NEWLINE, NEWLINE] + Join(LinesFor(paths), NEWLINE) + [NEWLINE]
  }

  /** A header as git writes one: no NUL, no empty line, no trailing newline, no `encoding` line. */
  predicate HeaderOk(header: Bytes)
  {
    && NUL !in header
    && (forall i :: 0 <= i < |header| - 1 ==> !BlankAt(header, i))
    && (header != [] ==> header[|header| - 1] != NEWLINE)
    && !Encoded(Split(header, NEWLINE))
  }

  predicate TitleOk(title: Bytes) { NUL !in title && NEWLINE !in title && !Blank(title) }

  lemma {:induction false} JoinLacks(lines: seq<Bytes>, b: Byte)
    requires forall i :: 0 <= i < |lines| ==> b !in lines[i]
    requires b != NEWLINE
    ensures b !in Join(lines, NEWLINE)
  {
    if |lines| <= 1 {
    } else {
      JoinLacks(lines[1..], b);
    }
  }

  lemma ShownOfPrinted(header: Bytes, message: Bytes)
    requires HeaderOk(header) && NUL !in message
    ensures ShownMessage(header + [NEWLINE, NEWLINE] + message) == Some(message)
  {
    var commit := header + [NEWLINE, NEWLINE] + message;
    forall k | 0 <= k < |header| ensures !BlankAt(commit, k) {
      assert k < |header| - 1 ==> !BlankAt(header, k);
    }
    assert BlankAt(commit, |header|);
    var end := HeaderEnd(commit, 0);
    assert end == Some(|header|);
    assert commit[..|header|] == header && commit[|header| + 2..] == message;
  }

  lemma MessageLines(title: Bytes, paths: seq<Bytes>)
    requires TitleOk(title) && paths != []
    requires forall i :: 0 <= i < |paths| ==> CleanPath(paths[i])
    ensures Split(PrintMessage(title, paths), NEWLINE) == [title] + [[]] + LinesFor(paths) + [[]]
  {
    var lines := LinesFor(paths);
    forall i | 0 <= i < |lines| ensures NEWLINE !in lines[i] { CleanLine(paths[i]); }
    var block := Join(lines, NEWLINE);
    var tail := block + [NEWLINE] + [];
    SplitJoin(lines, NEWLINE);
    SplitAcross(block, NEWLINE, []);
    SplitAcross([], NEWLINE, tail);
    SplitAcross(title, NEWLINE, [] + [NEWLINE] + tail);
    SplitPlain(title, NEWLINE);
    assert PrintMessage(title, paths) == title + [NEWLINE] + ([] + [NEWLINE] + tail);
    assert [title] + ([[]] + (lines + [[]])) == [title] + [[]] + lines + [[]];
  }

  /** A run of lines that are not blank, up to a blank one, is one paragraph. */
  lemma {:induction false} RunThenBlank(run: seq<Bytes>, blank: Bytes, rest: seq<Bytes>)
    requires Blank(blank) && forall i :: 0 <= i < |run| ==> !Blank(run[i])
    ensures Runs(run + [blank] + rest) == [run] + Runs(rest)
  {
    var lines := run + [blank] + rest;
    if run == [] {
      assert lines[1..] == rest;
    } else {
      RunThenBlank(run[1..], blank, rest);
      assert lines[1..] == run[1..] + [blank] + rest;
      assert run == [run[0]] + run[1..];
    }
  }

  lemma {:induction false} ApprovalsOfLines(paths: seq<Bytes>)
    requires forall i :: 0 <= i < |paths| ==> CleanPath(paths[i])
    ensures Approvals(LinesFor(paths)) == paths
  {
    if paths == [] {
    } else {
      ApprovalsOfLines(paths[1..]);
      assert LinesFor(paths)[1..] == LinesFor(paths[1..]);
      ApprovalExact(TrailerLine(paths[0]), paths[0]);
      assert paths == [paths[0]] + paths[1..];
    }
  }

  lemma PrintedParagraphs(title: Bytes, paths: seq<Bytes>)
    requires !Blank(title) && paths != []
    ensures Paragraphs([title] + [[]] + LinesFor(paths) + [[]]) == [[title], LinesFor(paths)]
  {
    var lines := LinesFor(paths);
    forall i | 0 <= i < |lines| ensures !Blank(lines[i]) { TrailerLineIsTrailer(paths[i]); }
    RunThenBlank(lines, [], []);
    RunThenBlank([title], [], lines + [[]] + []);
    assert [title] + [[]] + lines + [[]] == [title] + [[]] + (lines + [[]] + []);
    var none: seq<seq<Bytes>> := [[]];
    var runs := [[title]] + ([lines] + none);
    assert runs[1..] == [lines] + none && runs[1..][1..] == none && none[1..] == [];
    assert |lines| == |paths| > 0;
    assert NonEmpty([lines] + none) == [lines] + NonEmpty(none);
    assert NonEmpty(runs) == [[title]] + NonEmpty(runs[1..]);
  }

  /** Parsing the printed object returns exactly the printed paths. */
  lemma RoundTrip(header: Bytes, title: Bytes, paths: seq<Bytes>)
    requires HeaderOk(header) && TitleOk(title) && paths != []
    requires forall i :: 0 <= i < |paths| ==> CleanPath(paths[i])
    ensures TrailersOf(Print(header, title, paths)) == paths
  {
    var lines := LinesFor(paths);
    forall i | 0 <= i < |lines| ensures NUL !in lines[i] { CleanLine(paths[i]); }
    JoinLacks(lines, NUL);
    ShownOfPrinted(header, PrintMessage(title, paths));
    MessageLines(title, paths);
    PrintedParagraphs(title, paths);
    forall i | 0 <= i < |lines| ensures IsTrailer(lines[i]) { TrailerLineIsTrailer(paths[i]); }
    ApprovalsOfLines(paths);
  }

  // ----- nothing else approves

  lemma {:induction false} ApprovalsMember(lines: seq<Bytes>, path: Bytes) returns (i: nat)
    requires path in Approvals(lines)
    ensures i < |lines| && Approval(lines[i]) == Some(path)
  {
    if Approval(lines[0]) == Some(path) {
      i := 0;
    } else {
      var k := ApprovalsMember(lines[1..], path);
      i := k + 1;
    }
  }

  /** Lines `from` to `to` are the last paragraph: no blank line among them, only blank lines after,
      and a blank line before them or the start. */
  ghost predicate LastRun(lines: seq<Bytes>, from: nat, to: nat)
  {
    && from < to <= |lines|
    && (forall k :: from <= k < to ==> !Blank(lines[k]))
    && (forall k :: to <= k < |lines| ==> Blank(lines[k]))
    && (from > 0 ==> Blank(lines[from - 1]))
  }

  lemma LastRunShift(line: Bytes, rest: seq<Bytes>, from: nat, to: nat)
    requires LastRun(rest, from, to) && (from > 0 || Blank(line))
    ensures LastRun([line] + rest, from + 1, to + 1)
    ensures ([line] + rest)[from + 1..to + 1] == rest[from..to]
  {
  }

  lemma LastRunGrows(line: Bytes, rest: seq<Bytes>, to: nat)
    requires LastRun(rest, 0, to) && !Blank(line)
    ensures LastRun([line] + rest, 0, to + 1)
    ensures ([line] + rest)[0..to + 1] == [line] + rest[0..to]
  {
    var lines := [line] + rest;
    forall k | 0 <= k < to + 1 ensures !Blank(lines[k]) { assert k > 0 ==> lines[k] == rest[k - 1]; }
    forall k | to + 1 <= k < |lines| ensures Blank(lines[k]) { assert lines[k] == rest[k - 1]; }
  }

  /** Where the last paragraph lies, and that another one comes before it when there are two. */
  lemma {:induction false} LastParagraph(lines: seq<Bytes>) returns (from: nat, to: nat)
    requires Paragraphs(lines) != []
    ensures var paragraphs := Paragraphs(lines);
            && LastRun(lines, from, to) && lines[from..to] == paragraphs[|paragraphs| - 1]
            && (|paragraphs| >= 2 ==> exists t :: 0 <= t < from && !Blank(lines[t]))
            && (|paragraphs| == 1 ==> forall t :: 0 <= t < from ==> Blank(lines[t]))
            && (|paragraphs| == 1 && Runs(lines)[0] != [] ==> from == 0)
    decreases |lines|, 1
  {
    var line, rest := lines[0], lines[1..];
    var runs, later := Runs(rest), Paragraphs(rest);
    assert lines == [line] + rest;
    if Blank(line) {
      assert ([[]] + runs)[1..] == runs;
      assert Paragraphs(lines) == later;
      var a, b := LastParagraph(rest);
      LastRunShift(line, rest, a, b);
      from, to := a + 1, b + 1;
      if |later| >= 2 {
        var t :| 0 <= t < a && !Blank(rest[t]);
        assert lines[t + 1] == rest[t];
      }
    } else {
      from, to := LastParagraphAfter(lines);
    }
  }

  lemma {:induction false} LastParagraphAfter(lines: seq<Bytes>) returns (from: nat, to: nat)
    requires lines != [] && !Blank(lines[0])
    ensures var paragraphs := Paragraphs(lines);
            && paragraphs != []
            && LastRun(lines, from, to) && lines[from..to] == paragraphs[|paragraphs| - 1]
            && (|paragraphs| >= 2 ==> exists t :: 0 <= t < from && !Blank(lines[t]))
            && (|paragraphs| == 1 ==> from == 0)
    decreases |lines|, 0
  {
    var line, rest := lines[0], lines[1..];
    var runs, later := Runs(rest), Paragraphs(rest);
    assert lines == [line] + rest;
    var first := [line] + runs[0];
    assert ([first] + runs[1..])[1..] == runs[1..];
    assert Paragraphs(lines) == [first] + NonEmpty(runs[1..]);
    assert later == (if runs[0] == [] then [] else [runs[0]]) + NonEmpty(runs[1..]);
    if later == [] {
      AllBlank(rest);
      from, to := 0, 1;
      assert lines[0..1] == [line];
    } else {
      var a, b := LastParagraph(rest);
      if runs[0] != [] && |later| == 1 {
        from, to := 0, b + 1;
        LastRunGrows(line, rest, b);
      } else {
        assert a > 0 by { StartsLater(rest, a, b); }
        LastRunShift(line, rest, a, b);
        from, to := a + 1, b + 1;
        assert !Blank(lines[0]);
      }
    }
  }

  lemma AllBlank(lines: seq<Bytes>)
    requires Paragraphs(lines) == []
    ensures forall k :: 0 <= k < |lines| ==> Blank(lines[k])
  {
    if lines != [] {
      var runs := Runs(lines[1..]);
      if Blank(lines[0]) {
        assert ([[]] + runs)[1..] == runs;
        AllBlank(lines[1..]);
        assert forall k :: 0 < k < |lines| ==> lines[k] == lines[1..][k - 1];
      }
    }
  }

  /** Two paragraphs, or a blank first line, put the last paragraph after the start. */
  lemma StartsLater(lines: seq<Bytes>, from: nat, to: nat)
    requires LastRun(lines, from, to)
    requires (exists t :: 0 <= t < from && !Blank(lines[t])) || Runs(lines)[0] == []
    ensures from > 0
  {
  }

  lemma ApprovedLine(lines: seq<Bytes>, path: Bytes) returns (at: nat, from: nat, to: nat)
    requires var paragraphs := Paragraphs(lines);
             |paragraphs| >= 2 && AllTrailers(paragraphs[|paragraphs| - 1]) &&
             path in Approvals(paragraphs[|paragraphs| - 1])
    ensures CleanPath(path)
    ensures LastRun(lines, from, to) && from <= at < to && lines[at] == TrailerLine(path)
    ensures forall k :: from <= k < to ==> IsTrailer(lines[k])
    ensures exists t :: 0 <= t < from && !Blank(lines[t])
  {
    var paragraphs := Paragraphs(lines);
    var last := paragraphs[|paragraphs| - 1];
    from, to := LastParagraph(lines);
    var i := ApprovalsMember(last, path);
    ApprovalExact(last[i], path);
    at := from + i;
    assert lines[at] == lines[from..to][i];
    TrailersOfSlice(lines, from, to);
  }

  lemma TrailersOfSlice(lines: seq<Bytes>, from: nat, to: nat)
    requires from <= to <= |lines| && AllTrailers(lines[from..to])
    ensures forall k :: from <= k < to ==> IsTrailer(lines[k])
  {
  }

  /** Line `at` of the shown message is exactly the trailer for `path`: in a last paragraph of trailers,
      after a blank line that follows another paragraph, in an object with no NUL and no `encoding`
      header. */
  ghost predicate Approves(commit: Bytes, path: Bytes, end: nat, at: nat, from: nat, to: nat)
  {
    && NUL !in commit && CleanPath(path)
    && BlankAt(commit, end) && (forall k :: 0 <= k < end ==> !BlankAt(commit, k))
    && !Encoded(Split(commit[..end], NEWLINE))
    && var lines := Split(commit[end + 2..], NEWLINE);
       && LastRun(lines, from, to) && from <= at < to && lines[at] == TrailerLine(path)
       && (forall k :: from <= k < to ==> IsTrailer(lines[k]))
       && (exists t :: 0 <= t < from && !Blank(lines[t]))
  }

  /** Every returned path is an exact trailer line of the shown message. */
  lemma OnlyTrailersApprove(commit: Bytes, path: Bytes) returns (end: nat, at: nat, from: nat, to: nat)
    requires path in TrailersOf(commit)
    ensures Approves(commit, path, end, at, from, to)
  {
    end := HeaderEnd(commit, 0).value;
    at, from, to := ApprovedLine(Split(commit[end + 2..], NEWLINE), path);
  }

  // ----- every such line approves

  lemma {:induction false} ApprovalsHold(lines: seq<Bytes>, i: nat, path: Bytes)
    requires i < |lines| && Approval(lines[i]) == Some(path)
    ensures path in Approvals(lines)
  {
    if i == 0 {
    } else {
      ApprovalsHold(lines[1..], i - 1, path);
    }
  }

  lemma LastRunUnique(lines: seq<Bytes>, a: nat, b: nat, c: nat, d: nat)
    requires LastRun(lines, a, b) && LastRun(lines, c, d)
    ensures a == c && b == d
  {
    assert !Blank(lines[b - 1]) && !Blank(lines[d - 1]);
    assert a > 0 ==> Blank(lines[a - 1]);
    assert c > 0 ==> Blank(lines[c - 1]);
  }

  /** The last run, after another paragraph, is what the parser takes for the trailer block. */
  lemma LastRunIsLast(lines: seq<Bytes>, from: nat, to: nat)
    requires LastRun(lines, from, to) && exists t :: 0 <= t < from && !Blank(lines[t])
    ensures var paragraphs := Paragraphs(lines);
            |paragraphs| >= 2 && paragraphs[|paragraphs| - 1] == lines[from..to]
  {
    assert !Blank(lines[from]);
    if Paragraphs(lines) == [] { AllBlank(lines); }
    var a, b := LastParagraph(lines);
    LastRunUnique(lines, a, b, from, to);
  }

  lemma BlockApproves(lines: seq<Bytes>, path: Bytes, at: nat, from: nat, to: nat)
    requires from <= at < to <= |lines| && lines[at] == TrailerLine(path) && CleanPath(path)
    requires forall k :: from <= k < to ==> IsTrailer(lines[k])
    ensures AllTrailers(lines[from..to]) && path in Approvals(lines[from..to])
  {
    var last := lines[from..to];
    assert last[at - from] == lines[at];
    forall i | 0 <= i < |last| ensures IsTrailer(last[i]) { assert last[i] == lines[from + i]; }
    ApprovalExact(last[at - from], path);
    ApprovalsHold(last, at - from, path);
  }

  lemma TrailerLineApproves(commit: Bytes, path: Bytes, end: nat, at: nat, from: nat, to: nat)
    requires Approves(commit, path, end, at, from, to)
    ensures path in TrailersOf(commit)
  {
    assert HeaderEnd(commit, 0) == Some(end);
    var message := commit[end + 2..];
    assert ShownMessage(commit) == Some(message);
    LastRunIsLast(Split(message, NEWLINE), from, to);
    BlockApproves(Split(message, NEWLINE), path, at, from, to);
  }

  /** A commit approves a path exactly when such a line is in it. */
  lemma ApprovedExactly(commit: Bytes, path: Bytes)
    ensures path in TrailersOf(commit) <==> exists end, at, from, to :: Approves(commit, path, end, at, from, to)
  {
    if path in TrailersOf(commit) {
      var end, at, from, to := OnlyTrailersApprove(commit, path);
    }
    forall end, at, from, to | Approves(commit, path, end, at, from, to) ensures path in TrailersOf(commit) {
      TrailerLineApproves(commit, path, end, at, from, to);
    }
  }
}
