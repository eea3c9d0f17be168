/** Splitting a sequence on one separator, as `str::split` and `slice::split` do: always at least
    one piece, with empty pieces kept. */
module Text {
  function Split<T(==)>(s: seq<T>, sep: T): (pieces: seq<seq<T>>)
    ensures |pieces| >= 1
  {
    if s == [] then [[]]
    else
      var rest := Split(s[1..], sep);
      if s[0] == sep then [[]] + rest else [[s[0]] + rest[0]] + rest[1..]
  }

  lemma Associate<T>(a: seq<T>, b: seq<T>, c: seq<T>)
    ensures a + (b + c) == (a + b) + c
  {
  }

  lemma SliceOfSlice<T>(s: seq<T>, from: nat, to: nat, lo: nat, hi: nat)
    requires from <= to <= |s| && lo <= hi <= to - from
    ensures s[from..to][lo..hi] == s[from + lo..from + hi]
  {
    forall k | 0 <= k < hi - lo ensures s[from..to][lo..hi][k] == s[from + lo..from + hi][k] {
      assert s[from..to][lo..hi][k] == s[from..to][lo + k] == s[from + lo + k];
    }
  }

  function Join<T>(pieces: seq<seq<T>>, sep: T): seq<T>
  {
    if pieces == [] then []
    else if |pieces| == 1 then pieces[0]
    else pieces[0] + [sep] + Join(pieces[1..], sep)
  }

  lemma {:induction false} JoinPrepend<T>(x: T, pieces: seq<seq<T>>, sep: T)
    requires |pieces| >= 1
    ensures Join([[x] + pieces[0]] + pieces[1..], sep) == [x] + Join(pieces, sep)
  {
  }

  /** Joining the pieces gives the sequence back, and no piece holds the separator. */
  lemma {:induction false} JoinSplit<T>(s: seq<T>, sep: T)
    ensures Join(Split(s, sep), sep) == s
    ensures forall i :: 0 <= i < |Split(s, sep)| ==> sep !in Split(s, sep)[i]
  {
    if s == [] {
    } else {
      JoinSplit(s[1..], sep);
      var rest := Split(s[1..], sep);
      if s[0] == sep {
        assert ([[]] + rest)[1..] == rest;
        assert [] + [sep] + Join(rest, sep) == s;
      } else {
        JoinPrepend(s[0], rest, sep);
        assert s == [s[0]] + s[1..];
      }
    }
  }

  lemma {:induction false} SplitPlain<T>(s: seq<T>, sep: T)
    requires sep !in s
    ensures Split(s, sep) == [s]
  {
    if s == [] {
    } else {
      SplitPlain(s[1..], sep);
      assert s == [s[0]] + s[1..];
    }
  }

  lemma SplitFirst<T>(x: T, s: seq<T>, sep: T)
    ensures var rest := Split(s, sep);
            Split([x] + s, sep) == if x == sep then [[]] + rest else [[x] + rest[0]] + rest[1..]
  {
  }

  lemma Regroup<T>(x: T, left: seq<seq<T>>, right: seq<seq<T>>)
    requires |left| >= 1
    ensures [[]] + (left + right) == ([[]] + left) + right
    ensures [[x] + (left + right)[0]] + (left + right)[1..] == ([[x] + left[0]] + left[1..]) + right
  {
  }

  /** A separator between two texts splits them apart. */
  lemma {:induction false} SplitAcross<T>(a: seq<T>, sep: T, b: seq<T>)
    ensures Split(a + [sep] + b, sep) == Split(a, sep) + Split(b, sep)
  {
    if a == [] {
      SplitFirst(sep, b, sep);
      assert a + [sep] + b == [sep] + b;
    } else {
      var x, rest := a[0], a[1..];
      var longer := rest + [sep] + b;
      assert a == [x] + rest && a + [sep] + b == [x] + longer;
      SplitAcross(rest, sep, b);
      SplitFirst(x, rest, sep);
      SplitFirst(x, longer, sep);
      Regroup(x, Split(rest, sep), Split(b, sep));
    }
  }

  /** Splitting undoes joining when no piece holds the separator. */
  lemma {:induction false} SplitJoin<T>(pieces: seq<seq<T>>, sep: T)
    requires |pieces| >= 1
    requires forall i :: 0 <= i < |pieces| ==> sep !in pieces[i]
    ensures Split(Join(pieces, sep), sep) == pieces
  {
    SplitPlain(pieces[0], sep);
    if |pieces| > 1 {
      SplitJoin(pieces[1..], sep);
      SplitAcross(pieces[0], sep, Join(pieces[1..], sep));
      assert pieces == [pieces[0]] + pieces[1..];
    } else {
      assert pieces == [pieces[0]];
    }
  }

  function NonEmpty<T(==)>(pieces: seq<seq<T>>): seq<seq<T>>
  {
    if pieces == [] then []
    else (if pieces[0] == [] then [] else [pieces[0]]) + NonEmpty(pieces[1..])
  }

  /** Only the empty pieces go, and the others keep their order. */
  lemma {:induction false} NonEmptyParts<T>(a: seq<seq<T>>, piece: seq<T>)
    ensures NonEmpty(a + [piece]) == NonEmpty(a) + (if |piece| > 0 then [piece] else [])
    ensures NonEmpty<T>([]) == []
  {
    if a == [] {
      assert a + [piece] == [piece];
    } else {
      assert (a + [piece])[1..] == a[1..] + [piece];
      NonEmptyParts(a[1..], piece);
    }
  }

  /** Splitting gives the one list of pieces without the separator that joins back to the sequence. */
  lemma SplitExactly<T>(s: seq<T>, sep: T, pieces: seq<seq<T>>)
    requires pieces != []
    ensures Split(s, sep) == pieces <==>
            Join(pieces, sep) == s && forall i :: 0 <= i < |pieces| ==> sep !in pieces[i]
  {
    JoinSplit(s, sep);
    if Join(pieces, sep) == s && forall i :: 0 <= i < |pieces| ==> sep !in pieces[i] { SplitJoin(pieces, sep); }
  }
}
