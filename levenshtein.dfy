/** levenshtein_distance(string, string): unit-cost edit distance, computed
    with one row of the dynamic-programming matrix that is updated in place.
    Characters are bytes on the ASCII path and decoded code points on the
    generic path; the kernel is written once for any character type. */
module Levenshtein {
  import opened Common
  import Hamming

  /** Inputs whose lengths multiply to more than this are refused. */
  const MaxCombinedInputSize: nat := 1_000_000

  function Min3(a: nat, b: nat, c: nat): nat {
    if a <= b && a <= c then a else if b <= c then b else c
  }

  /** The edit distance between the first i characters of a and the first j
      characters of b: the fewest single-character insertions, deletions and
      substitutions that turn one into the other, by the standard recurrence
      on the last characters. */
  function Dist<T(==)>(a: seq<T>, b: seq<T>, i: nat, j: nat): nat
    requires i <= |a| && j <= |b|
    decreases i + j
  {
    if i == 0 then j
    else if j == 0 then i
    else
      Min3(Dist(a, b, i - 1, j) + 1, Dist(a, b, i, j - 1) + 1,
           Dist(a, b, i - 1, j - 1) + (if a[i - 1] == b[j - 1] then 0 else 1))
  }

  /** The edit distance between a and b. */
  function Distance<T(==)>(a: seq<T>, b: seq<T>): nat {
    Dist(a, b, |a|, |b|)
  }

  /** The distance does not depend on the order of the arguments. */
  lemma {:induction false} DistSymmetric<T>(a: seq<T>, b: seq<T>, i: nat, j: nat)
    requires i <= |a| && j <= |b|
    ensures Dist(a, b, i, j) == Dist(b, a, j, i)
    decreases i + j
  {
    if i > 0 && j > 0 {
      DistSymmetric(a, b, i - 1, j);
      DistSymmetric(a, b, i, j - 1);
      DistSymmetric(a, b, i - 1, j - 1);
    }
  }

  lemma DistanceSymmetric<T>(a: seq<T>, b: seq<T>)
    ensures Distance(a, b) == Distance(b, a)
  {
    DistSymmetric(a, b, |a|, |b|);
  }

  /** Every prefix is at distance zero from itself. */
  lemma {:induction false} DistToSelf<T>(s: seq<T>, i: nat)
    requires i <= |s|
    ensures Dist(s, s, i, i) == 0
  {
    if i > 0 {
      DistToSelf(s, i - 1);
    }
  }

  /** levenshtein(s, s) == 0. */
  lemma DistanceToSelf<T>(s: seq<T>)
    ensures Distance(s, s) == 0
  {
    DistToSelf(s, |s|);
  }

  /** Distance zero means equal prefixes. */
  lemma {:induction false} DistZeroIffEqual<T>(a: seq<T>, b: seq<T>, i: nat, j: nat)
    requires i <= |a| && j <= |b|
    ensures Dist(a, b, i, j) == 0 <==> a[..i] == b[..j]
    decreases i + j
  {
    if i > 0 && j > 0 {
      if a[i - 1] == b[j - 1] {
        MatchTakesDiagonal(a, b, i, j);
        DistZeroIffEqual(a, b, i - 1, j - 1);
        PrefixesEqualStep(a, b, i, j);
      } else {
        assert a[..i][i - 1] != b[..j][j - 1];
      }
    } else if i == 0 && j > 0 {
      assert |b[..j]| > 0;
    } else if i > 0 && j == 0 {
      assert |a[..i]| > 0;
    }
  }

  /** Prefixes that end in the same character are equal exactly when they
      are equal without it. */
  lemma PrefixesEqualStep<T>(a: seq<T>, b: seq<T>, i: nat, j: nat)
    requires 0 < i <= |a| && 0 < j <= |b| && a[i - 1] == b[j - 1]
    ensures a[..i] == b[..j] <==> a[..i - 1] == b[..j - 1]
  {
    assert a[..i] == a[..i - 1] + [a[i - 1]];
    assert b[..j] == b[..j - 1] + [b[j - 1]];
    if a[..i] == b[..j] {
      assert a[..i - 1] == a[..i][..i - 1];
    }
  }

  /** The distance is zero exactly for equal strings. */
  lemma DistanceZeroIffEqual<T>(a: seq<T>, b: seq<T>)
    ensures Distance(a, b) == 0 <==> a == b
  {
    DistZeroIffEqual(a, b, |a|, |b|);
    assert a[..|a|] == a && b[..|b|] == b;
  }

  /** One more character of b lowers the distance by at most one and raises
      it by at most one. */
  lemma {:induction false} DistExtendRight<T>(a: seq<T>, b: seq<T>, i: nat, j: nat)
    requires i <= |a| && j < |b|
    ensures Dist(a, b, i, j) <= Dist(a, b, i, j + 1) + 1
    ensures Dist(a, b, i, j + 1) <= Dist(a, b, i, j) + 1
    decreases i
  {
    if i > 0 {
      DistExtendRight(a, b, i - 1, j);
      assert Dist(a, b, i, j) <= Dist(a, b, i - 1, j) + 1;
    }
  }

  /** One more character of a lowers the distance by at most one. */
  lemma DistExtendLeft<T>(a: seq<T>, b: seq<T>, i: nat, j: nat)
    requires i < |a| && j <= |b|
    ensures Dist(a, b, i, j) <= Dist(a, b, i + 1, j) + 1
  {
    DistSymmetric(a, b, i, j);
    DistSymmetric(a, b, i + 1, j);
    DistExtendRight(b, a, j, i);
  }

  /** When the last characters match, the distance is that of the prefixes
      without them: the diagonal predecessor is never beaten by the other
      two. */
  lemma MatchTakesDiagonal<T>(a: seq<T>, b: seq<T>, i: nat, j: nat)
    requires 0 < i <= |a| && 0 < j <= |b| && a[i - 1] == b[j - 1]
    ensures Dist(a, b, i, j) == Dist(a, b, i - 1, j - 1)
  {
    DistExtendRight(a, b, i - 1, j - 1);
    DistExtendLeft(a, b, i - 1, j - 1);
  }

  /** For equally long prefixes the edit distance never exceeds the Hamming
      distance: substituting each differing character is one way to edit. */
  lemma {:induction false} DistAtMostHamming<T>(a: seq<T>, b: seq<T>, n: nat)
    requires n <= |a| && n <= |b|
    ensures Dist(a, b, n, n) <= Hamming.Mismatches(a[..n], b[..n])
  {
    if n > 0 {
      DistAtMostHamming(a, b, n - 1);
      assert a[..n][..n - 1] == a[..n - 1] && b[..n][..n - 1] == b[..n - 1];
    }
  }

  lemma DistanceAtMostHamming<T>(a: seq<T>, b: seq<T>)
    requires |a| == |b|
    ensures Distance(a, b) <= Hamming.Mismatches(a, b)
  {
    DistAtMostHamming(a, b, |a|);
    assert a[..|a|] == a && b[..|b|] == b;
  }

  /** The distance is at least the difference of the prefix lengths. */
  lemma {:induction false} DistLowerBound<T>(a: seq<T>, b: seq<T>, i: nat, j: nat)
    requires i <= |a| && j <= |b|
    ensures i - j <= Dist(a, b, i, j) && j - i <= Dist(a, b, i, j)
    decreases i + j
  {
    if i > 0 && j > 0 {
      DistLowerBound(a, b, i - 1, j);
      DistLowerBound(a, b, i, j - 1);
      DistLowerBound(a, b, i - 1, j - 1);
      assert Dist(a, b, i, j) == Dist(a, b, i - 1, j) + 1 || Dist(a, b, i, j) == Dist(a, b, i, j - 1) + 1 ||
             Dist(a, b, i, j) >= Dist(a, b, i - 1, j - 1);
    }
  }

  /** The distance is at most the longer prefix length. */
  lemma {:induction false} DistUpperBound<T>(a: seq<T>, b: seq<T>, i: nat, j: nat)
    requires i <= |a| && j <= |b|
    ensures Dist(a, b, i, j) <= if i <= j then j else i
    decreases i + j
  {
    if i > 0 && j > 0 {
      DistUpperBound(a, b, i - 1, j - 1);
      assert Dist(a, b, i, j) <= Dist(a, b, i - 1, j - 1) + 1;
    }
  }

  /** The distance is at least the difference of the lengths and at most the
      longer length. */
  lemma DistanceBounds<T>(a: seq<T>, b: seq<T>)
    ensures |a| - |b| <= Distance(a, b) && |b| - |a| <= Distance(a, b)
    ensures Distance(a, b) <= if |a| <= |b| then |b| else |a|
  {
    DistLowerBound(a, b, |a|, |b|);
    DistUpperBound(a, b, |a|, |b|);
  }

  /** levenshtein_distance on two character sequences: the shorter input
      becomes the inner dimension, an empty input gives the other's length,
      and inputs whose lengths multiply to more than MaxCombinedInputSize are
      refused. */
  method LevenshteinDistance<T(==)>(left: seq<T>, right: seq<T>) returns (r: Result<nat>)
    ensures |left| > 0 && |right| > 0 && |left| * |right| > MaxCombinedInputSize ==>
              r == Failure(LevenshteinInputTooLarge)
    ensures !(|left| > 0 && |right| > 0 && |left| * |right| > MaxCombinedInputSize) ==>
              r == Success(Distance(left, right))
    decreases if |left| < |right| then 1 else 0
  {
    if |left| < |right| {
      r := LevenshteinDistance(right, left);
      DistanceSymmetric(left, right);
      return;
    }
    if |right| == 0 {
      return Success(|left|);
    }
    if |left| * |right| > MaxCombinedInputSize {
      return Failure(LevenshteinInputTooLarge);
    }
    var d := RollingRowDistance(left, right);
    return Success(d);
  }

  /** distances[k] holds the distance between the first i characters of left
      and the first k + 1 characters of right. */
  ghost predicate RowHolds<T>(distances: array<nat>, left: seq<T>, right: seq<T>, i: nat)
    requires i <= |left|
    reads distances
  {
    && distances.Length == |right|
    && forall k :: 0 <= k < |right| ==> distances[k] == Dist(left, right, i, k + 1)
  }

  /** The dynamic program over one row: start from the row for the empty
      prefix of left and fold in one character of left at a time. */
  method RollingRowDistance<T(==)>(left: seq<T>, right: seq<T>) returns (d: nat)
    requires |right| > 0
    ensures d == Distance(left, right)
  {
    var distances := new nat[|right|];
    for j := 0 to |right|
      invariant forall k :: 0 <= k < j ==> distances[k] == Dist(left, right, 0, k + 1)
    {
      distances[j] := j + 1;
    }
    for i := 0 to |left|
      invariant RowHolds(distances, left, right, i)
    {
      UpdateRow(distances, left, right, i);
    }
    return distances[|right| - 1];
  }

  /** The first cell of the row update: the distance for the first i + 1
      characters of left and the first character of right, from the old
      row's first cell (up); the diagonal is i and the left neighbour i + 1. */
  function FirstCell<T(==)>(left: seq<T>, right: seq<T>, i: nat, up: nat): (d: nat)
    requires i < |left| && 0 < |right|
    requires up == Dist(left, right, i, 1)
    ensures d == Dist(left, right, i + 1, 1)
  {
    if left[i] == right[0] then
      MatchTakesDiagonal(left, right, i + 1, 1);
      i
    else
      (if i <= up then i else up) + 1
  }

  /** One cell of the row update after the first: the distance for the first
      i + 1 characters of left and the first j + 1 of right, from its left
      neighbour in the new row (leftD), its upper neighbour in the old row
      (up) and the diagonal (diag). A match takes the diagonal unchanged. */
  function Cell<T(==)>(left: seq<T>, right: seq<T>, i: nat, j: nat, leftD: nat, up: nat, diag: nat): (d: nat)
    requires i < |left| && 0 < j < |right|
    requires up == Dist(left, right, i, j + 1) && diag == Dist(left, right, i, j)
    requires leftD == Dist(left, right, i + 1, j)
    ensures d == Dist(left, right, i + 1, j + 1)
  {
    if left[i] == right[j] then
      MatchTakesDiagonal(left, right, i + 1, j + 1);
      diag
    else
      Min3(leftD, diag, up) + 1
  }

  /** The start of one outer iteration: keeps the old row's first cell as
      the diagonal of the next and replaces it with the new row's first
      cell; the rest of the row is untouched. */
  method StartRow<T(==)>(distances: array<nat>, left: seq<T>, right: seq<T>, i: nat) returns (leftUpDistance: nat)
    requires i < |left| && |right| > 0
    requires RowHolds(distances, left, right, i)
    modifies distances
    ensures distances[0] == Dist(left, right, i + 1, 1)
    ensures forall k :: 1 <= k < |right| ==> distances[k] == Dist(left, right, i, k + 1)
    ensures leftUpDistance == Dist(left, right, i, 1)
  {
    leftUpDistance := distances[0];
    distances[0] := FirstCell(left, right, i, distances[0]);
  }

  /** One outer iteration: turns the row for the first i characters of left
      into the row for the first i + 1, in place, carrying the diagonal value
      of the old row in leftUpDistance. */
  method UpdateRow<T(==)>(distances: array<nat>, left: seq<T>, right: seq<T>, i: nat)
    requires i < |left| && |right| > 0
    requires RowHolds(distances, left, right, i)
    modifies distances
    ensures RowHolds(distances, left, right, i + 1)
  {
    var leftUpDistance := StartRow(distances, left, right, i);
    for j := 1 to |right|
      invariant forall k :: 0 <= k < j ==> distances[k] == Dist(left, right, i + 1, k + 1)
      invariant forall k :: j <= k < |right| ==> distances[k] == Dist(left, right, i, k + 1)
      invariant leftUpDistance == Dist(left, right, i, j)
    {
      var leftUpDistanceNext := distances[j];
      distances[j] := Cell(left, right, i, j, distances[j - 1], distances[j], leftUpDistance);
      leftUpDistance := leftUpDistanceNext;
    }
  }

  /** levenshtein_distance("kitten", "sitting") == 3. */
  lemma LevenshteinExample()
    ensures Distance("kitten", "sitting") == 3
  {
    KittenSitting("kitten", "sitting");
  }

  /** The table of the example, one cell at a time in row order. */
  lemma KittenSitting(a: seq<char>, b: seq<char>)
    requires a == "kitten" && b == "sitting"
    ensures Dist(a, b, 6, 7) == 3
  {
    assert Dist(a, b, 1, 1) == 1;
    assert Dist(a, b, 1, 2) == 2;
    assert Dist(a, b, 1, 3) == 3;
    assert Dist(a, b, 1, 4) == 4;
    assert Dist(a, b, 1, 5) == 5;
    assert Dist(a, b, 1, 6) == 6;
    assert Dist(a, b, 1, 7) == 7;
    assert Dist(a, b, 2, 1) == 2;
    assert Dist(a, b, 2, 2) == 1;
    assert Dist(a, b, 2, 3) == 2;
    assert Dist(a, b, 2, 4) == 3;
    assert Dist(a, b, 2, 5) == 4;
    assert Dist(a, b, 2, 6) == 5;
    assert Dist(a, b, 2, 7) == 6;
    assert Dist(a, b, 3, 1) == 3;
    assert Dist(a, b, 3, 2) == 2;
    assert Dist(a, b, 3, 3) == 1;
    assert Dist(a, b, 3, 4) == 2;
    assert Dist(a, b, 3, 5) == 3;
    assert Dist(a, b, 3, 6) == 4;
    assert Dist(a, b, 3, 7) == 5;
    assert Dist(a, b, 4, 1) == 4;
    assert Dist(a, b, 4, 2) == 3;
    assert Dist(a, b, 4, 3) == 2;
    assert Dist(a, b, 4, 4) == 1;
    assert Dist(a, b, 4, 5) == 2;
    assert Dist(a, b, 4, 6) == 3;
    assert Dist(a, b, 4, 7) == 4;
    assert Dist(a, b, 5, 1) == 5;
    assert Dist(a, b, 5, 2) == 4;
    assert Dist(a, b, 5, 3) == 3;
    assert Dist(a, b, 5, 4) == 2;
    assert Dist(a, b, 5, 5) == 2;
    assert Dist(a, b, 5, 6) == 3;
    assert Dist(a, b, 5, 7) == 4;
    assert Dist(a, b, 6, 1) == 6;
    assert Dist(a, b, 6, 2) == 5;
    assert Dist(a, b, 6, 3) == 4;
    assert Dist(a, b, 6, 4) == 3;
    assert Dist(a, b, 6, 5) == 3;
    assert Dist(a, b, 6, 6) == 2;
    assert Dist(a, b, 6, 7) == 3;
  }
}
