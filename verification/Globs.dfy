/** The boundary glob dialect (crates/checks/src/globs.rs): `*` inside one segment, `**` over whole
    segments. Two fast forms that never backtrack are proved equal to two existential ones. */
module Globs {
  import opened Options
  import opened Text

  const STAR := '*'
  const GLOBSTAR := "**"
  const SLASH := '/'

  // ----- the meaning of one segment pattern

  function Stars(pattern: string): nat
  {
    if pattern == "" then 0 else (if pattern[0] == '*' then 1 else 0) + Stars(pattern[1..])
  }

  /** The pattern with its stars replaced, left to right, by `fills`. */
  function Fill(pattern: string, fills: seq<string>): string
    requires |fills| == Stars(pattern)
  {
    if pattern == "" then ""
    else if pattern[0] == '*' then fills[0] + Fill(pattern[1..], fills[1..])
    else [pattern[0]] + Fill(pattern[1..], fills)
  }

  /** Some way of filling each star makes the pattern equal the text. */
  ghost predicate SegmentMatch(pattern: string, text: string)
  {
    exists fills: seq<string> :: |fills| == Stars(pattern) && Fill(pattern, fills) == text
  }

  // ----- pieces: the pattern split at its stars

  /** `pieces` occur in `text` in order, without overlap, the first at the start and the last at
      the end; a single piece is the whole text. */
  ghost predicate Laid(pieces: seq<string>, text: string)
    requires |pieces| >= 1
    decreases |pieces|
  {
    if |pieces| == 1 then text == pieces[0]
    else
      && pieces[0] <= text
      && exists at :: |pieces[0]| <= at <= |text| && Laid(pieces[1..], text[at..])
  }

  /** The middle pieces occur in `text` in order, without overlap, anywhere. */
  ghost predicate Placed(middle: seq<string>, text: string)
    decreases |middle|
  {
    middle == [] ||
    exists at: nat :: OccursAt(middle[0], text, at) && Placed(middle[1..], text[at + |middle[0]|..])
  }

  predicate OccursAt(piece: string, text: string, at: nat)
  {
    at + |piece| <= |text| && text[at..at + |piece|] == piece
  }

  /** Prefixing one plain character to the first piece shifts every placement by one. */
  lemma LaidPrepend(c: char, pieces: seq<string>, text: string)
    requires |pieces| >= 1
    ensures Laid([[c] + pieces[0]] + pieces[1..], text) <==>
            text != "" && text[0] == c && Laid(pieces, text[1..])
  {
    var more := [[c] + pieces[0]] + pieces[1..];
    assert more[1..] == pieces[1..];
    if |pieces| > 1 {
      if Laid(more, text) {
        var at :| |more[0]| <= at <= |text| && Laid(more[1..], text[at..]);
        assert text[1..][at - 1..] == text[at..];
        assert pieces[0] <= text[1..];
        assert Laid(pieces, text[1..]);
      }
      if text != "" && text[0] == c && Laid(pieces, text[1..]) {
        var at :| |pieces[0]| <= at <= |text[1..]| && Laid(pieces[1..], text[1..][at..]);
        assert text[1..][at..] == text[at + 1..];
        assert more[0] <= text;
        assert Laid(more, text);
      }
    } else {
      assert text != "" ==> text == [text[0]] + text[1..];
    }
  }

  lemma {:induction false} FillIsLaid(pattern: string, fills: seq<string>)
    requires |fills| == Stars(pattern)
    ensures Laid(Split(pattern, STAR), Fill(pattern, fills))
  {
    if pattern == "" {
    } else {
      var text, rest := Fill(pattern, fills), Split(pattern[1..], STAR);
      if pattern[0] == STAR {
        FillIsLaid(pattern[1..], fills[1..]);
        assert text[|fills[0]|..] == Fill(pattern[1..], fills[1..]);
        assert ([[]] + rest)[1..] == rest;
      } else {
        FillIsLaid(pattern[1..], fills);
        assert text[1..] == Fill(pattern[1..], fills);
        LaidPrepend(pattern[0], rest, text);
      }
    }
  }

  lemma StarFilled(pattern: string, text: string, at: nat, more: seq<string>)
    requires pattern != "" && pattern[0] == STAR && at <= |text|
    requires |more| == Stars(pattern[1..]) && Fill(pattern[1..], more) == text[at..]
    ensures var fills := [text[..at]] + more; |fills| == Stars(pattern) && Fill(pattern, fills) == text
  {
    assert ([text[..at]] + more)[1..] == more;
    assert text[..at] + text[at..] == text;
  }

  lemma {:induction false} LaidIsFill(pattern: string, text: string) returns (fills: seq<string>)
    requires Laid(Split(pattern, STAR), text)
    ensures |fills| == Stars(pattern) && Fill(pattern, fills) == text
  {
    if pattern == "" {
      fills := [];
    } else if pattern[0] == STAR {
      var rest := Split(pattern[1..], STAR);
      var pieces := [[]] + rest;
      assert pieces[1..] == rest;
      var at: nat :| at <= |text| && Laid(pieces[1..], text[at..]);
      var more := LaidIsFill(pattern[1..], text[at..]);
      StarFilled(pattern, text, at, more);
      fills := [text[..at]] + more;
    } else {
      LaidPrepend(pattern[0], Split(pattern[1..], STAR), text);
      fills := LaidIsFill(pattern[1..], text[1..]);
    }
  }

  /** Laying the pieces out is: head first, tail last, and the middle anywhere between. */
  lemma {:induction false} LaidByEnds(head: string, middle: seq<string>, tail: string, text: string)
    ensures Laid([head] + middle + [tail], text) <==>
            (|head| + |tail| <= |text| && head <= text && text[|text| - |tail|..] == tail &&
             Placed(middle, text[|head|..|text| - |tail|]))
    decreases |middle|
  {
    var pieces := [head] + middle + [tail];
    assert pieces[1..] == middle + [tail];
    if middle == [] {
      if Laid(pieces, text) {
        var at :| |head| <= at <= |text| && Laid(pieces[1..], text[at..]);
        assert text[at..] == tail;
      }
      if |head| + |tail| <= |text| && head <= text && text[|text| - |tail|..] == tail {
        assert Laid(pieces[1..], text[|text| - |tail|..]);
      }
    } else {
      if Laid(pieces, text) {
        var at :| |head| <= at <= |text| && Laid(pieces[1..], text[at..]);
        LaidToPlaced(head, middle, tail, text, at);
      }
      if |head| + |tail| <= |text| && head <= text && text[|text| - |tail|..] == tail &&
         Placed(middle, text[|head|..|text| - |tail|]) {
        PlacedToLaid(head, middle, tail, text);
      }
    }
  }

  /** A part of a text and the rest of it from a place on share what lies between. */
  lemma CutInner(text: string, from: nat, to: nat, at: nat, n: nat)
    requires from <= at && at + n <= to <= |text|
    ensures text[from..to][at - from..at - from + n] == text[at..at + n] == text[at..][..n]
    ensures text[from..to][at - from + n..] == text[at..][n..to - at]
    ensures text[at..][to - at..] == text[to..]
  {
    SliceOfSlice(text, from, to, at - from, at - from + n);
    SliceOfSlice(text, from, to, at - from + n, to - from);
    SliceOfSlice(text, at, |text|, n, to - at);
  }

  lemma {:induction false} LaidToPlaced(head: string, middle: seq<string>, tail: string, text: string, at: nat)
    requires middle != [] && head <= text && |head| <= at <= |text|
    requires Laid(middle + [tail], text[at..])
    ensures |head| + |tail| <= |text| && text[|text| - |tail|..] == tail
    ensures Placed(middle, text[|head|..|text| - |tail|])
    decreases |middle|, 0
  {
    var m, rest, cut, end := middle[0], middle[1..], text[at..], |text| - |tail|;
    assert middle + [tail] == [m] + rest + [tail];
    LaidByEnds(m, rest, tail, cut);
    CutInner(text, |head|, end, at, |m|);
    assert OccursAt(m, text[|head|..end], at - |head|);
  }

  /** The first middle piece placed in the inner text starts a cut that the others are placed in. */
  lemma CutPlaced(head: string, m: string, rest: seq<string>, tail: string, text: string, at: nat)
    requires |head| + |tail| <= |text| && text[|text| - |tail|..] == tail
    requires var inner := text[|head|..|text| - |tail|];
             OccursAt(m, inner, at) && Placed(rest, inner[at + |m|..])
    ensures |head| + at <= |text|
    ensures var cut := text[|head| + at..];
            && |m| + |tail| <= |cut| && m <= cut && cut[|cut| - |tail|..] == tail
            && Placed(rest, cut[|m|..|cut| - |tail|])
  {
    CutInner(text, |head|, |text| - |tail|, |head| + at, |m|);
  }

  lemma {:induction false} PlacedToLaid(head: string, middle: seq<string>, tail: string, text: string)
    requires middle != [] && head <= text && |head| + |tail| <= |text| && text[|text| - |tail|..] == tail
    requires Placed(middle, text[|head|..|text| - |tail|])
    ensures Laid([head] + middle + [tail], text)
    decreases |middle|, 0
  {
    var m, rest, inner := middle[0], middle[1..], text[|head|..|text| - |tail|];
    var at: nat :| OccursAt(m, inner, at) && Placed(rest, inner[at + |m|..]);
    CutPlaced(head, m, rest, tail, text, at);
    LaidByEnds(m, rest, tail, text[|head| + at..]);
    LaidFirst(head, [m] + rest + [tail], text, |head| + at);
    PiecesRegroup(head, middle, tail);
  }

  lemma PiecesRegroup(head: string, middle: seq<string>, tail: string)
    requires middle != []
    ensures [head] + middle + [tail] == [head] + ([middle[0]] + middle[1..] + [tail])
  {
  }

  lemma LaidFirst(head: string, pieces: seq<string>, text: string, at: nat)
    requires pieces != [] && head <= text && |head| <= at <= |text| && Laid(pieces, text[at..])
    ensures Laid([head] + pieces, text)
  {
    assert ([head] + pieces)[1..] == pieces;
  }

  // ----- leftmost is never wrong

  lemma PlacedEarlier(middle: seq<string>, text: string, skip: nat)
    requires skip <= |text| && Placed(middle, text[skip..])
    ensures Placed(middle, text)
  {
    if middle != [] {
      var at :| 0 <= at && OccursAt(middle[0], text[skip..], at) &&
          Placed(middle[1..], text[skip..][at + |middle[0]|..]);
      assert text[skip..][at..at + |middle[0]|] == text[skip + at..skip + at + |middle[0]|];
      assert text[skip..][at + |middle[0]|..] == text[skip + at + |middle[0]|..];
      assert OccursAt(middle[0], text, skip + at);
    }
  }

  /** Taking the leftmost place of the first piece loses no match. */
  lemma LeftmostSuffices(middle: seq<string>, text: string, first: nat)
    requires middle != []
    requires OccursAt(middle[0], text, first)
    requires forall at :: 0 <= at < first ==> !OccursAt(middle[0], text, at)
    ensures Placed(middle, text) <==> Placed(middle[1..], text[first + |middle[0]|..])
  {
    if Placed(middle, text) {
      var at :| 0 <= at && OccursAt(middle[0], text, at) && Placed(middle[1..], text[at + |middle[0]|..]);
      var after := text[first + |middle[0]|..];
      assert after[at - first..] == text[at + |middle[0]|..];
      PlacedEarlier(middle[1..], after, at - first);
    }
  }

  /** `str::find`: the first place of `piece`, if there is one. */
  method Find(text: string, piece: string) returns (at: Option<nat>)
    ensures at.None? ==> forall i: nat :: !OccursAt(piece, text, i)
    ensures at.Some? ==> OccursAt(piece, text, at.value) && forall i: nat :: i < at.value ==> !OccursAt(piece, text, i)
  {
    var from := 0;
    while from + |piece| <= |text|
      invariant forall i: nat :: i < from ==> !OccursAt(piece, text, i)
    {
      if text[from..from + |piece|] == piece {
        return Some(from);
      }
      from := from + 1;
    }
    return None;
  }

  /** The greedy matcher accepts exactly the texts that some filling of the stars gives. */
  method SegmentMatches(pattern: string, text: string) returns (ok: bool)
    ensures ok <==> SegmentMatch(pattern, text)
  {
    var pieces := Split(pattern, STAR);
    if |pieces| < 2 {
      OnePiece(pattern);
      ok := pattern == text;
    } else {
      ok := EndsAndMiddle(pieces[0], pieces[1..|pieces| - 1], pieces[|pieces| - 1], text);
      FirstMiddleLast(pieces);
    }
    SegmentMatchIsLaid(pattern, text);
  }

  lemma OnePiece(pattern: string)
    requires |Split(pattern, STAR)| == 1
    ensures Split(pattern, STAR) == [pattern]
  {
    JoinSplit(pattern, STAR);
  }

  lemma FirstMiddleLast(pieces: seq<string>)
    requires |pieces| >= 2
    ensures [pieces[0]] + pieces[1..|pieces| - 1] + [pieces[|pieces| - 1]] == pieces
  {
  }

  /** The head and the tail at the ends, without overlap, and the middle pieces between them. */
  method EndsAndMiddle(head: string, middle: seq<string>, tail: string, text: string) returns (ok: bool)
    ensures ok <==> Laid([head] + middle + [tail], text)
  {
    LaidByEnds(head, middle, tail, text);
    if |text| < |tail| {
      return false;
    }
    var end := |text| - |tail|;
    if end < |head| || !(head <= text) || text[end..] != tail {
      return false;
    }
    ok := PlaceMiddle(middle, text, |head|, end);
  }

  /** Each piece takes its leftmost place after the one before it, and no choice is undone. */
  method PlaceMiddle(middle: seq<string>, text: string, start: nat, end: nat) returns (ok: bool)
    requires start <= end <= |text|
    ensures ok <==> Placed(middle, text[start..end])
  {
    var position := start;
    for i := 0 to |middle|
      invariant start <= position <= end
      invariant Placed(middle, text[start..end]) <==> Placed(middle[i..], text[position..end])
    {
      var found := Find(text[position..end], middle[i]);
      if found.None? {
        return false;
      }
      LeftmostSuffices(middle[i..], text[position..end], found.value);
      assert middle[i..][1..] == middle[i + 1..];
      SliceOfSlice(text, position, end, found.value + |middle[i]|, end - position);
      position := position + found.value + |middle[i]|;
    }
    return true;
  }

  lemma SegmentMatchIsLaid(pattern: string, text: string)
    ensures SegmentMatch(pattern, text) <==> Laid(Split(pattern, STAR), text)
  {
    if SegmentMatch(pattern, text) {
      var fills: seq<string> :| |fills| == Stars(pattern) && Fill(pattern, fills) == text;
      FillIsLaid(pattern, fills);
    }
    if Laid(Split(pattern, STAR), text) {
      var fills := LaidIsFill(pattern, text);
    }
  }

  // ----- the meaning of a glob

  ghost predicate AllNonEmpty(segments: seq<string>)
  {
    forall i :: 0 <= i < |segments| ==> segments[i] != ""
  }

  lemma NonEmptyAppend(segments: seq<string>, segment: string)
    ensures AllNonEmpty(segments + [segment]) <==> AllNonEmpty(segments) && segment != ""
  {
    var more := segments + [segment];
    if AllNonEmpty(more) {
      forall i | 0 <= i < |segments| ensures segments[i] != "" { assert more[i] != ""; }
      assert more[|segments|] != "";
    }
  }

  /** An inner `**` takes any number of non-empty segments and a final one takes one or more;
      any other element takes one segment. */
  ghost predicate GlobMatch(elements: seq<string>, segments: seq<string>)
    decreases |elements|
  {
    if elements == [] then segments == []
    else if elements[0] != "**" then
      segments != [] && SegmentMatch(elements[0], segments[0]) && GlobMatch(elements[1..], segments[1..])
    else if |elements| == 1 then segments != [] && AllNonEmpty(segments)
    else exists n :: 0 <= n <= |segments| && AllNonEmpty(segments[..n]) && GlobMatch(elements[1..], segments[n..])
  }

  /** Some reached place lets the remaining elements consume the remaining segments. */
  ghost predicate Continues(reached: seq<bool>, elements: seq<string>, segments: seq<string>)
    requires |reached| == |segments| + 1
  {
    exists j :: 0 <= j < |reached| && reached[j] && GlobMatch(elements, segments[j..])
  }

  /** The places before a segment that are reached. */
  ghost function ReachedBefore(reached: seq<bool>, n: nat): set<nat>
  {
    set j: nat | j < n && j < |reached| && reached[j]
  }

  lemma ReachedNext(reached: seq<bool>, n: nat)
    requires n < |reached|
    ensures |ReachedBefore(reached, n + 1)| == |ReachedBefore(reached, n)| + (if reached[n] then 1 else 0)
  {
    assert ReachedBefore(reached, n + 1) == ReachedBefore(reached, n) + (if reached[n] then {n} else {});
  }

  /** One plain element: a place is reached when the one before was and the segment matches. */
  method Step(reached: seq<bool>, segments: seq<string>, element: string)
    returns (next: seq<bool>, ghost tests: nat)
    requires |reached| == |segments| + 1
    ensures |next| == |reached| && !next[0]
    ensures forall j :: 0 <= j < |segments| ==> (next[j + 1] <==> reached[j] && SegmentMatch(element, segments[j]))
    ensures tests == |ReachedBefore(reached, |segments|)| <= |segments|
  {
    next := [false];
    tests := 0;
    assert ReachedBefore(reached, 0) == {};
    for j := 0 to |segments|
      invariant |next| == j + 1 && !next[0]
      invariant forall i :: 0 <= i < j ==> (next[i + 1] <==> reached[i] && SegmentMatch(element, segments[i]))
      invariant tests == |ReachedBefore(reached, j)| <= j
    {
      ReachedNext(reached, j);
      var here := false;
      if reached[j] {
        here := SegmentMatches(element, segments[j]);
        tests := tests + 1;
      }
      next := next + [here];
    }
  }

  /** `**`: spreads each reached place over the non-empty segments after it. */
  method Globstar(reached: seq<bool>, segments: seq<string>, last: bool) returns (next: seq<bool>)
    requires |reached| == |segments| + 1
    ensures |next| == |reached|
    ensures forall j :: 0 <= j < |next| ==>
              (next[j] <==> Spanned(reached, segments, last, j))
  {
    var spread := [false];
    for j := 0 to |segments|
      invariant |spread| == j + 1
      invariant forall k :: 0 <= k <= j ==> (spread[k] <==> Spread(reached, segments, k))
    {
      var more := segments[j] != "" && (reached[j] || spread[j]);
      SpreadNext(reached, segments, j);
      spread := spread + [more];
    }
    if last {
      next := spread;
    } else {
      next := seq(|reached|, j requires 0 <= j < |reached| => reached[j] || spread[j]);
    }
    forall j | 0 <= j < |next|
      ensures next[j] <==> Spanned(reached, segments, last, j)
    {
      assert spread[j] <==> Spread(reached, segments, j);
      if !last && reached[j] {
        assert segments[j..j] == [];
      }
    }
  }

  /** `**` takes non-empty segments from a reached place through `j`. */
  ghost predicate Spanned(reached: seq<bool>, segments: seq<string>, last: bool, j: nat)
    requires |reached| == |segments| + 1 && j <= |segments|
  {
    exists i :: 0 <= i <= j && (last ==> i < j) && reached[i] && AllNonEmpty(segments[i..j])
  }

  ghost predicate Spread(reached: seq<bool>, segments: seq<string>, j: nat)
    requires |reached| == |segments| + 1 && j <= |segments|
  {
    exists i :: 0 <= i < j && reached[i] && AllNonEmpty(segments[i..j])
  }

  lemma SpreadNext(reached: seq<bool>, segments: seq<string>, j: nat)
    requires |reached| == |segments| + 1 && j < |segments|
    ensures Spread(reached, segments, j + 1) <==>
            segments[j] != "" && (reached[j] || Spread(reached, segments, j))
  {
    forall i | 0 <= i <= j
      ensures AllNonEmpty(segments[i..j + 1]) <==> segments[j] != "" && AllNonEmpty(segments[i..j])
    {
      assert segments[i..j + 1] == segments[i..j] + [segments[j]];
      NonEmptyAppend(segments[i..j], segments[j]);
    }
    assert segments[j..j] == [];
  }

  lemma StepContinues(reached: seq<bool>, next: seq<bool>, elements: seq<string>, segments: seq<string>)
    requires |reached| == |next| == |segments| + 1 && !next[0]
    requires elements != [] && elements[0] != GLOBSTAR
    requires forall j :: 0 <= j < |segments| ==> (next[j + 1] <==> reached[j] && SegmentMatch(elements[0], segments[j]))
    ensures Continues(reached, elements, segments) <==> Continues(next, elements[1..], segments)
  {
    forall j | 0 <= j < |segments| ensures segments[j..][1..] == segments[j + 1..] {}
    if Continues(reached, elements, segments) {
      var j :| 0 <= j < |reached| && reached[j] && GlobMatch(elements, segments[j..]);
      assert next[j + 1] && GlobMatch(elements[1..], segments[j + 1..]);
    }
    if Continues(next, elements[1..], segments) {
      var k :| 0 <= k < |next| && next[k] && GlobMatch(elements[1..], segments[k..]);
      assert k > 0 && next[(k - 1) + 1];
      assert GlobMatch(elements, segments[k - 1..]);
    }
  }

  lemma GlobstarForward(reached: seq<bool>, elements: seq<string>, segments: seq<string>, i: nat) returns (j: nat)
    requires |reached| == |segments| + 1 && i < |reached| && reached[i]
    requires elements != [] && elements[0] == GLOBSTAR
    requires GlobMatch(elements, segments[i..])
    ensures j <= |segments| && Spanned(reached, segments, |elements| == 1, j)
    ensures GlobMatch(elements[1..], segments[j..])
  {
    if |elements| == 1 {
      j := |segments|;
      assert segments[i..j] == segments[i..] && segments[j..] == [];
    } else {
      var rest := segments[i..];
      var m :| 0 <= m <= |rest| && AllNonEmpty(rest[..m]) && GlobMatch(elements[1..], rest[m..]);
      j := i + m;
      assert rest[..m] == segments[i..j] && rest[m..] == segments[j..];
    }
  }

  lemma GlobstarBackward(reached: seq<bool>, elements: seq<string>, segments: seq<string>, j: nat) returns (i: nat)
    requires |reached| == |segments| + 1 && j <= |segments|
    requires elements != [] && elements[0] == GLOBSTAR
    requires Spanned(reached, segments, |elements| == 1, j)
    requires GlobMatch(elements[1..], segments[j..])
    ensures i < |reached| && reached[i] && GlobMatch(elements, segments[i..])
  {
    i :| 0 <= i <= j && (|elements| == 1 ==> i < j) && reached[i] && AllNonEmpty(segments[i..j]);
    var rest := segments[i..];
    assert rest[..j - i] == segments[i..j] && rest[j - i..] == segments[j..];
    if |elements| == 1 {
      assert rest == segments[i..j];
    }
  }

  lemma GlobstarContinues(reached: seq<bool>, next: seq<bool>, elements: seq<string>, segments: seq<string>)
    requires |reached| == |next| == |segments| + 1
    requires elements != [] && elements[0] == GLOBSTAR
    requires forall j :: 0 <= j < |next| ==> (next[j] <==> Spanned(reached, segments, |elements| == 1, j))
    ensures Continues(reached, elements, segments) <==> Continues(next, elements[1..], segments)
  {
    if Continues(reached, elements, segments) {
      var i :| 0 <= i < |reached| && reached[i] && GlobMatch(elements, segments[i..]);
      var j := GlobstarForward(reached, elements, segments, i);
      assert next[j];
    }
    if Continues(next, elements[1..], segments) {
      var j :| 0 <= j < |next| && next[j] && GlobMatch(elements[1..], segments[j..]);
      var i := GlobstarBackward(reached, elements, segments, j);
    }
  }

  /** One element of the glob: any way on from the places before it is a way on from those after. */
  method Pass(reached: seq<bool>, segments: seq<string>, elements: seq<string>, index: nat, last: bool)
    returns (next: seq<bool>, ghost tests: nat)
    requires |reached| == |segments| + 1 && index < |elements| && (last <==> index == |elements| - 1)
    ensures |next| == |reached|
    ensures tests == (if elements[index] == "**" then 0 else |ReachedBefore(reached, |segments|)|) <= |segments|
    ensures Continues(reached, elements[index..], segments) <==> Continues(next, elements[index + 1..], segments)
  {
    assert elements[index..][1..] == elements[index + 1..];
    if elements[index] == GLOBSTAR {
      next := Globstar(reached, segments, last);
      tests := 0;
      GlobstarContinues(reached, next, elements[index..], segments);
    } else {
      next, tests := Step(reached, segments, elements[index]);
      StepContinues(reached, next, elements[index..], segments);
    }
  }

  ghost function Total(spent: seq<nat>): nat
  {
    if spent == [] then 0 else Total(spent[..|spent| - 1]) + spent[|spent| - 1]
  }

  /** The forward pass accepts exactly the glob relation, and spends on each element, `**` excepted, at most
      one test for each segment. */
  method GlobMatches(elements: seq<string>, segments: seq<string>) returns (ok: bool, ghost spent: seq<nat>)
    ensures ok <==> GlobMatch(elements, segments)
    ensures |spent| == |elements|
    ensures forall i :: 0 <= i < |spent| ==> spent[i] <= if elements[i] == "**" then 0 else |segments|
    ensures Total(spent) <= |elements| * |segments|
  {
    var reached := seq(|segments| + 1, j => j == 0);
    assert segments[0..] == segments;
    assert Continues(reached, elements, segments) <==> GlobMatch(elements, segments);
    var last := if |elements| == 0 then 0 else |elements| - 1;
    spent := [];
    for index := 0 to |elements|
      invariant |reached| == |segments| + 1
      invariant Continues(reached, elements[index..], segments) <==> GlobMatch(elements, segments)
      invariant |spent| == index && Total(spent) <= index * |segments|
      invariant forall i :: 0 <= i < index ==> spent[i] <= if elements[i] == "**" then 0 else |segments|
    {
      assert (index + 1) * |segments| == index * |segments| + |segments|;
      ghost var tests, before := 0, spent;
      reached, tests := Pass(reached, segments, elements, index, index == last);
      spent := spent + [tests];
      assert spent[..index] == before;
    }
    ok := reached[|segments|];
    assert elements[|elements|..] == [];
    assert segments[|segments|..] == [];
  }

  /** A path is in the boundary when one glob matches its segments. */
  method InBoundary(path: string, globs: seq<string>) returns (inside: bool)
    ensures inside <==> exists i :: 0 <= i < |globs| && GlobMatch(Split(globs[i], '/'), Split(path, '/'))
  {
    var segments := Split(path, SLASH);
    for i := 0 to |globs|
      invariant forall k :: 0 <= k < i ==> !GlobMatch(Split(globs[k], SLASH), segments)
    {
      var ok, _ := GlobMatches(Split(globs[i], SLASH), segments);
      if ok {
        return true;
      }
    }
    return false;
  }
}
