/** Cutting strings at a separator character and joining them again. */
module Splitting {

  function IndexOf(s: string, c: char): (i: nat)
    ensures i <= |s|
    ensures forall j :: 0 <= j < i ==> s[j] != c
    ensures i < |s| ==> s[i] == c
  {
    if s == "" || s[0] == c then 0 else 1 + IndexOf(s[1..], c)
  }

  lemma IndexOfUnique(s: string, c: char, i: nat)
    requires i <= |s|
    requires forall j :: 0 <= j < i ==> s[j] != c
    requires i < |s| ==> s[i] == c
    ensures IndexOf(s, c) == i
  {
  }

  /** All pieces, empty ones included. */
  function SplitOn(s: string, c: char): (parts: seq<string>)
    ensures parts != []
    decreases |s|
  {
    var i := IndexOf(s, c);
    if i == |s| then [s] else [s[..i]] + SplitOn(s[i + 1..], c)
  }

  lemma SplitHead(s: string, c: char)
    ensures var i, parts := IndexOf(s, c), SplitOn(s, c);
      && parts[0] == s[..i]
      && (i == |s| ==> |parts| == 1)
      && (i < |s| ==> parts[1..] == SplitOn(s[i + 1..], c))
  {
  }

  function Join(parts: seq<string>, c: char): string
    requires parts != []
  {
    if |parts| == 1 then parts[0] else parts[0] + [c] + Join(parts[1..], c)
  }

  ghost predicate AllFree(parts: seq<string>, c: char) {
    forall i :: 0 <= i < |parts| ==> c !in parts[i]
  }

  lemma {:induction false} SplitFree(s: string, c: char)
    ensures AllFree(SplitOn(s, c), c)
    decreases |s|
  {
    var i := IndexOf(s, c);
    if i < |s| {
      SplitFree(s[i + 1..], c);
    }
  }

  lemma {:induction false} JoinOfSplit(s: string, c: char)
    ensures Join(SplitOn(s, c), c) == s
    decreases |s|
  {
    var i := IndexOf(s, c);
    if i < |s| {
      JoinOfSplit(s[i + 1..], c);
      SplitHead(s, c);
      assert s == s[..i] + [c] + s[i + 1..];
    }
  }

  lemma {:induction false} SplitOfJoin(parts: seq<string>, c: char)
    requires parts != [] && AllFree(parts, c)
    ensures SplitOn(Join(parts, c), c) == parts
  {
    var s := Join(parts, c);
    if |parts| == 1 {
      IndexOfUnique(s, c, |s|);
    } else {
      SplitOfJoin(parts[1..], c);
      assert c !in parts[0];
      forall j | 0 <= j < |parts[0]|
        ensures s[j] != c
      {
        assert s[j] == parts[0][j];
      }
      IndexOfUnique(s, c, |parts[0]|);
      assert s[..|parts[0]|] == parts[0];
      assert s[|parts[0]| + 1..] == Join(parts[1..], c);
      assert parts == [parts[0]] + parts[1..];
    }
  }

  lemma {:induction false} JoinSnoc(front: seq<string>, last: string, c: char)
    requires front != []
    ensures Join(front + [last], c) == Join(front, c) + [c] + last
  {
    if |front| > 1 {
      assert (front + [last])[1..] == front[1..] + [last];
      JoinSnoc(front[1..], last, c);
      assert Join(front + [last], c) == front[0] + [c] + (Join(front[1..], c) + [c] + last);
      assert Join(front, c) == front[0] + [c] + Join(front[1..], c);
    } else {
      assert (front + [last])[1..] == [last];
    }
  }

  function NonEmpties(parts: seq<string>): seq<string> {
    if parts == [] then []
    else (if parts[0] == "" then [] else [parts[0]]) + NonEmpties(parts[1..])
  }

  /** The non-empty pieces, in order. */
  function Pieces(s: string, c: char): seq<string> {
    NonEmpties(SplitOn(s, c))
  }

  lemma {:induction false} NonEmptiesAll(parts: seq<string>)
    requires forall i :: 0 <= i < |parts| ==> parts[i] != ""
    ensures NonEmpties(parts) == parts
  {
    if parts != [] {
      NonEmptiesAll(parts[1..]);
    }
  }

  lemma {:induction false} NonEmptiesSub(parts: seq<string>)
    ensures forall x :: x in NonEmpties(parts) ==> x != "" && x in parts
  {
    if parts != [] {
      NonEmptiesSub(parts[1..]);
    }
  }

  lemma OnePiece(x: string)
    ensures NonEmpties([x]) == if x == "" then [] else [x]
  {
    assert [x][1..] == [];
  }

  /** A leading separator adds no piece. */
  lemma PiecesSkip(s: string, c: char)
    ensures Pieces([c] + s, c) == Pieces(s, c)
  {
    IndexOfUnique([c] + s, c, 0);
    assert ([c] + s)[1..] == s;
    assert SplitOn([c] + s, c)[1..] == SplitOn(s, c);
  }

  /** A maximal separator-free run is the first piece. */
  lemma PiecesTake(run: string, rest: string, c: char)
    requires run != "" && c !in run && (rest != "" ==> rest[0] == c)
    ensures Pieces(run + rest, c) == [run] + Pieces(rest, c)
  {
    var s := run + rest;
    IndexOfUnique(s, c, |run|);
    if rest == "" {
      assert s == run;
      OnePiece(run);
      OnePiece("");
    } else {
      assert s[..|run|] == run && s[|run| + 1..] == rest[1..];
      assert SplitOn(s, c)[1..] == SplitOn(rest[1..], c);
      assert rest == [c] + rest[1..];
      PiecesSkip(rest[1..], c);
    }
  }

  /** Every piece is non-empty, free of the separator and made of characters of the string. */
  lemma PieceChars(s: string, c: char, x: string)
    requires x in Pieces(s, c)
    ensures x != "" && c !in x && forall ch :: ch in x ==> ch in s
  {
    NonEmptiesSub(SplitOn(s, c));
    SplitFree(s, c);
    SplitChars(s, c, x);
  }

  lemma {:induction false} SplitChars(s: string, c: char, x: string)
    requires x in SplitOn(s, c)
    ensures forall ch :: ch in x ==> ch in s
    decreases |s|
  {
    var i := IndexOf(s, c);
    if i < |s| && x != s[..i] {
      SplitChars(s[i + 1..], c, x);
    }
  }

  lemma NoPieces(c: char)
    ensures Pieces("", c) == []
  {
    OnePiece("");
  }

  /** Loop steps over a suffix: dropping a separator, and moving a run to the pieces found. */
  lemma SkipStep(found: seq<string>, s: string, p: nat, c: char)
    requires p < |s| && s[p] == c
    ensures found + Pieces(s[p..], c) == found + Pieces(s[p + 1..], c)
  {
    assert s[p..] == [c] + s[p + 1..];
    PiecesSkip(s[p + 1..], c);
  }

  lemma TakeStep(found: seq<string>, s: string, p: nat, n: nat, c: char)
    requires 0 < n && p + n <= |s| && c !in s[p..p + n] && (p + n < |s| ==> s[p + n] == c)
    ensures found + Pieces(s[p..], c) == (found + [s[p..p + n]]) + Pieces(s[p + n..], c)
  {
    var run, rest := s[p..p + n], s[p + n..];
    assert s[p..] == run + rest;
    PiecesTake(run, rest, c);
    assert found + ([run] + Pieces(rest, c)) == (found + [run]) + Pieces(rest, c);
  }
}
