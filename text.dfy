/**
 * The two Python string operations the entity validator calls, the
 * substring test `pat in s` and `s.replace(pat, '')`, for a non-empty
 * pattern. `s.count(pat)`, `s.split(pat)`, `sep.join(pieces)` and
 * `''.join(pieces)` are reference definitions, used only to state what
 * the deletion does. Every search scans left to right and takes
 * non-overlapping occurrences, as CPython does.
 */
module Text {

  /** `pat` occurs in `s` starting at index `i`. */
  predicate OccursAt(s: string, pat: string, i: int)
  {
    0 <= i && i + |pat| <= |s| && s[i..i + |pat|] == pat
  }

  /** Python's `pat in s`: some occurrence exists anywhere. */
  predicate Contains(s: string, pat: string)
  {
    exists i | 0 <= i <= |s| - |pat| :: OccursAt(s, pat, i)
  }

  predicate StartsWith(s: string, pat: string)
  {
    |pat| <= |s| && s[..|pat|] == pat
  }

  /** Python's `s.count(pat)`: the number of non-overlapping occurrences found left to right. */
  function Count(s: string, pat: string): nat
    requires |pat| > 0
    decreases |s|
  {
    if |s| < |pat| then 0
    else if StartsWith(s, pat) then 1 + Count(s[|pat|..], pat)
    else Count(s[1..], pat)
  }

  /** Python's `s.replace(pat, '')`: every non-overlapping occurrence, found left to right, is deleted. */
  function RemoveAll(s: string, pat: string): string
    requires |pat| > 0
    decreases |s|
  {
    if |s| < |pat| then s
    else if StartsWith(s, pat) then RemoveAll(s[|pat|..], pat)
    else [s[0]] + RemoveAll(s[1..], pat)
  }

  /** Python's `s.split(pat)`: the pieces between non-overlapping occurrences, found left to right. */
  function Split(s: string, pat: string): (pieces: seq<string>)
    requires |pat| > 0
    ensures |pieces| >= 1
    decreases |s|
  {
    if |s| < |pat| then [s]
    else if StartsWith(s, pat) then [""] + Split(s[|pat|..], pat)
    else
      var rest := Split(s[1..], pat);
      [[s[0]] + rest[0]] + rest[1..]
  }

  /** Python's `sep.join(pieces)` for a non-empty list of pieces. */
  function Join(pieces: seq<string>, sep: string): string
    requires |pieces| >= 1
  {
    if |pieces| == 1 then pieces[0] else pieces[0] + sep + Join(pieces[1..], sep)
  }

  /** Python's `''.join(pieces)`. */
  function Concat(pieces: seq<string>): string
  {
    if pieces == [] then [] else pieces[0] + Concat(pieces[1..])
  }

  /** The scanning count finds an occurrence exactly when the substring test succeeds. */
  lemma {:induction false} CountPositiveIffContains(s: string, pat: string)
    requires |pat| > 0
    ensures Count(s, pat) > 0 <==> Contains(s, pat)
    decreases |s|
  {
    if |s| < |pat| {
      assert !Contains(s, pat);
    } else if StartsWith(s, pat) {
      assert OccursAt(s, pat, 0);
    } else {
      CountPositiveIffContains(s[1..], pat);
      if Contains(s, pat) {
        var i :| 0 <= i <= |s| - |pat| && OccursAt(s, pat, i);
        assert i != 0;
        assert s[1..][i - 1..i - 1 + |pat|] == s[i..i + |pat|];
        assert OccursAt(s[1..], pat, i - 1);
      }
      if Contains(s[1..], pat) {
        var i :| 0 <= i <= |s| - 1 - |pat| && OccursAt(s[1..], pat, i);
        assert s[1..][i..i + |pat|] == s[i + 1..i + 1 + |pat|];
        assert OccursAt(s, pat, i + 1);
      }
    }
  }

  /** Deleting the occurrences shortens the text by the pattern's length once per occurrence counted. */
  lemma {:induction false} RemoveAllLength(s: string, pat: string)
    requires |pat| > 0
    ensures |RemoveAll(s, pat)| == |s| - |pat| * Count(s, pat)
    decreases |s|
  {
    if |s| < |pat| {
    } else if StartsWith(s, pat) {
      var c := Count(s[|pat|..], pat);
      RemoveAllLength(s[|pat|..], pat);
      assert |pat| * (1 + c) == |pat| + |pat| * c;
    } else {
      RemoveAllLength(s[1..], pat);
    }
  }

  /** There is one more piece than there are occurrences. */
  lemma {:induction false} SplitLength(s: string, pat: string)
    requires |pat| > 0
    ensures |Split(s, pat)| == Count(s, pat) + 1
    decreases |s|
  {
    if |s| < |pat| {
    } else if StartsWith(s, pat) {
      SplitLength(s[|pat|..], pat);
    } else {
      SplitLength(s[1..], pat);
    }
  }

  /** Joining the pieces back with the pattern restores the original text. */
  lemma {:induction false} JoinSplit(s: string, pat: string)
    requires |pat| > 0
    ensures Join(Split(s, pat), pat) == s
    decreases |s|
  {
    if |s| < |pat| {
    } else if StartsWith(s, pat) {
      var rest := Split(s[|pat|..], pat);
      JoinSplit(s[|pat|..], pat);
      assert Split(s, pat) == [""] + rest;
      assert ([""] + rest)[1..] == rest;
      assert s == s[..|pat|] + s[|pat|..];
    } else {
      var rest := Split(s[1..], pat);
      JoinSplit(s[1..], pat);
      var pieces := [[s[0]] + rest[0]] + rest[1..];
      assert Split(s, pat) == pieces;
      if |rest| == 1 {
        assert Join(pieces, pat) == [s[0]] + rest[0];
      } else {
        assert pieces[1..] == rest[1..];
        assert Join(rest, pat) == rest[0] + pat + Join(rest[1..], pat);
        calc {
          Join(pieces, pat);
          ([s[0]] + rest[0]) + pat + Join(rest[1..], pat);
          [s[0]] + (rest[0] + pat + Join(rest[1..], pat));
          [s[0]] + s[1..];
        }
      }
      assert s == [s[0]] + s[1..];
    }
  }

  /** Deleting every occurrence is the same as splitting and concatenating the pieces. */
  lemma {:induction false} ConcatSplit(s: string, pat: string)
    requires |pat| > 0
    ensures Concat(Split(s, pat)) == RemoveAll(s, pat)
    decreases |s|
  {
    if |s| < |pat| {
      assert Concat([s]) == s + Concat([]);
    } else if StartsWith(s, pat) {
      var rest := Split(s[|pat|..], pat);
      ConcatSplit(s[|pat|..], pat);
      assert ([""] + rest)[1..] == rest;
    } else {
      var rest := Split(s[1..], pat);
      ConcatSplit(s[1..], pat);
      var pieces := [[s[0]] + rest[0]] + rest[1..];
      assert pieces[1..] == rest[1..];
      assert Concat(rest) == rest[0] + Concat(rest[1..]);
      calc {
        Concat(pieces);
        ([s[0]] + rest[0]) + Concat(rest[1..]);
        [s[0]] + (rest[0] + Concat(rest[1..]));
        [s[0]] + RemoveAll(s[1..], pat);
      }
    }
  }

  /** The first piece is a prefix of the text it was split from. */
  lemma {:induction false} FirstPieceIsPrefix(s: string, pat: string)
    requires |pat| > 0
    ensures |Split(s, pat)[0]| <= |s| && Split(s, pat)[0] == s[..|Split(s, pat)[0]|]
    decreases |s|
  {
    if |s| < |pat| {
    } else if StartsWith(s, pat) {
    } else {
      FirstPieceIsPrefix(s[1..], pat);
    }
  }

  /** A piece free of the pattern stays free when extended by one character at the front, if the text it starts does not begin with the pattern. */
  lemma ExtendedPieceIsFree(s: string, piece: string, pat: string)
    requires |pat| > 0 && |pat| <= |s| && !StartsWith(s, pat)
    requires 1 + |piece| <= |s| && [s[0]] + piece == s[..1 + |piece|]
    requires !Contains(piece, pat)
    ensures !Contains([s[0]] + piece, pat)
  {
    var first := [s[0]] + piece;
    if Contains(first, pat) {
      var i :| 0 <= i <= |first| - |pat| && OccursAt(first, pat, i);
      assert first[..|pat|] == s[..|pat|];
      assert i != 0;
      assert piece[i - 1..i - 1 + |pat|] == first[i..i + |pat|];
      assert OccursAt(piece, pat, i - 1);
      assert false;
    }
  }

  /**
   * No piece contains the pattern: every occurrence the text had was cut out.
   * The concatenation of the pieces may still contain it, across a cut.
   */
  lemma {:induction false} PiecesAreFree(s: string, pat: string)
    requires |pat| > 0
    ensures forall k :: 0 <= k < |Split(s, pat)| ==> !Contains(Split(s, pat)[k], pat)
    decreases |s|
  {
    if |s| < |pat| {
    } else if StartsWith(s, pat) {
      var rest := Split(s[|pat|..], pat);
      PiecesAreFree(s[|pat|..], pat);
      assert Split(s, pat) == [""] + rest;
      assert !Contains("", pat);
    } else {
      var rest := Split(s[1..], pat);
      PiecesAreFree(s[1..], pat);
      FirstPieceIsPrefix(s[1..], pat);
      assert [s[0]] + rest[0] == s[..1 + |rest[0]|];
      ExtendedPieceIsFree(s, rest[0], pat);
      assert Split(s, pat) == [[s[0]] + rest[0]] + rest[1..];
    }
  }
}
