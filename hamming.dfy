/** hamming_distance(string, string): the number of positions at which two
    equally long strings differ. The ASCII path compares bytes; the generic
    path walks both strings with a UTF-8 decoder, one code point at a time. */
module Hamming {
  import opened Common

  /** The number of indices at which a and b hold different elements. */
  function Mismatches<T(==)>(a: seq<T>, b: seq<T>): (d: nat)
    requires |a| == |b|
    ensures d <= |a|
  {
    if a == [] then 0
    else
      var n := |a| - 1;
      Mismatches(a[..n], b[..n]) + (if a[n] != b[n] then 1 else 0)
  }

  /** The count is zero exactly for equal strings. */
  lemma {:induction false} MismatchesZeroIffEqual<T>(a: seq<T>, b: seq<T>)
    requires |a| == |b|
    ensures Mismatches(a, b) == 0 <==> a == b
    decreases |a|
  {
    if a != [] {
      var n := |a| - 1;
      MismatchesZeroIffEqual(a[..n], b[..n]);
      assert a == a[..n] + [a[n]] && b == b[..n] + [b[n]];
    }
  }

  /** Counting from the front gives the same count as counting from the
      back. */
  lemma {:induction false} MismatchesCons<T>(x: T, a: seq<T>, y: T, b: seq<T>)
    requires |a| == |b|
    ensures Mismatches([x] + a, [y] + b) == (if x != y then 1 else 0) + Mismatches(a, b)
    decreases |a|
  {
    if a != [] {
      var n := |a| - 1;
      assert ([x] + a)[..n + 1] == [x] + a[..n];
      assert ([y] + b)[..n + 1] == [y] + b[..n];
      MismatchesCons(x, a[..n], y, b[..n]);
    }
  }

  /** The same, for a split after the first element. */
  lemma MismatchesFront<T>(a: seq<T>, b: seq<T>)
    requires |a| == |b| && a != []
    ensures Mismatches(a, b) == (if a[0] != b[0] then 1 else 0) + Mismatches(a[1..], b[1..])
  {
    MismatchesCons(a[0], a[1..], b[0], b[1..]);
    assert [a[0]] + a[1..] == a && [b[0]] + b[1..] == b;
  }

  /** The distance does not depend on the order of the arguments. */
  lemma {:induction false} MismatchesSymmetric<T>(a: seq<T>, b: seq<T>)
    requires |a| == |b|
    ensures Mismatches(a, b) == Mismatches(b, a)
    decreases |a|
  {
    if a != [] {
      MismatchesSymmetric(a[..|a| - 1], b[..|b| - 1]);
    }
  }

  /** The ASCII path: the byte lengths must agree, then every byte position
      whose bytes differ adds one. */
  method HammingDistanceAscii(left: seq<byte>, right: seq<byte>) returns (r: Result<nat>)
    ensures |left| != |right| ==> r == Failure(HammingLengthMismatch)
    ensures |left| == |right| ==> r == Success(Mismatches(left, right))
  {
    if |left| != |right| {
      return Failure(HammingLengthMismatch);
    }
    var distance := 0;
    for i := 0 to |left|
      invariant distance == Mismatches(left[..i], right[..i])
    {
      assert left[..i + 1][..i] == left[..i] && right[..i + 1][..i] == right[..i];
      if left[i] != right[i] {
        distance := distance + 1;
      }
    }
    assert left[..|left|] == left && right[..|right|] == right;
    return Success(distance);
  }

  /** What the UTF-8 decoder reports at a cursor: a code point and the number
      of bytes it used, or, for an invalid unit, a negative code point whose
      magnitude is the number of bytes to skip. */
  datatype Decoded = Decoded(codePoint: int, size: int)

  /** How far a cursor moves after decoding d. */
  function Advance(d: Decoded): int {
    if d.codePoint >= 0 then d.size else -d.codePoint
  }

  /** The decoder (utf8proc_codepoint, applied to the bytes from the cursor to
      the end) is not part of this model; it is a parameter, and the one thing
      assumed of it is that each step on non-empty input moves the cursor
      forward by at least one byte. */
  ghost predicate MakesProgress(decode: seq<byte> -> Decoded) {
    forall s :: |s| > 0 ==> Advance(decode(s)) >= 1
  }

  /** The generic path's loop as a recursion on what is left of each input:
      decode both, move both cursors, count a step whose code points differ.
      The inputs must run out together, and no step may jump past an end. */
  function Walk(decode: seq<byte> -> Decoded, left: seq<byte>, right: seq<byte>): Result<nat>
    requires MakesProgress(decode)
    decreases |left|
  {
    if left == [] || right == [] then
      if left == [] && right == [] then Success(0) else Failure(HammingLengthMismatch)
    else
      var l, r := decode(left), decode(right);
      if Advance(l) > |left| || Advance(r) > |right| then
        Failure(HammingLengthMismatch)
      else
        match Walk(decode, left[Advance(l)..], right[Advance(r)..])
        case Success(d) => Success(d + (if l.codePoint != r.codePoint then 1 else 0))
        case Failure(e) => Failure(e)
  }

  /** The code points the decoder reads from s, front to back; None when a
      step would jump past the end of s. */
  function CodePoints(decode: seq<byte> -> Decoded, s: seq<byte>): Option<seq<int>>
    requires MakesProgress(decode)
    decreases |s|
  {
    if s == [] then Some([])
    else
      var d := decode(s);
      if Advance(d) > |s| then None
      else
        match CodePoints(decode, s[Advance(d)..])
        case Some(rest) => Some([d.codePoint] + rest)
        case None => None
  }

  /** Hamming distance of two decoded strings: defined only when both decode
      completely into equally many code points. */
  function CompareCodePoints(left: Option<seq<int>>, right: Option<seq<int>>): Result<nat> {
    if left.Some? && right.Some? && |left.value| == |right.value| then
      Success(Mismatches(left.value, right.value))
    else
      Failure(HammingLengthMismatch)
  }

  /** The walk is the Hamming distance of the decoded code point sequences. */
  lemma {:induction false} WalkComparesCodePoints(decode: seq<byte> -> Decoded, left: seq<byte>, right: seq<byte>)
    requires MakesProgress(decode)
    ensures Walk(decode, left, right) == CompareCodePoints(CodePoints(decode, left), CodePoints(decode, right))
    decreases |left|
  {
    if left != [] && right != [] {
      var l, r := decode(left), decode(right);
      if Advance(l) <= |left| && Advance(r) <= |right| {
        var left', right' := left[Advance(l)..], right[Advance(r)..];
        WalkComparesCodePoints(decode, left', right');
        var cl, cr := CodePoints(decode, left'), CodePoints(decode, right');
        if cl.Some? && cr.Some? && |cl.value| == |cr.value| {
          MismatchesCons(l.codePoint, cl.value, r.codePoint, cr.value);
        }
      }
    }
  }

  /** The walk from cursors at leftPosition and rightPosition; a cursor that
      has jumped past the end of its input fails the length check. */
  function WalkFrom(decode: seq<byte> -> Decoded, left: seq<byte>, right: seq<byte>, leftPosition: nat, rightPosition: nat): Result<nat>
    requires MakesProgress(decode)
  {
    if leftPosition <= |left| && rightPosition <= |right| then
      Walk(decode, left[leftPosition..], right[rightPosition..])
    else
      Failure(HammingLengthMismatch)
  }

  /** One turn of the generic loop: the walk from the current cursors is this
      step's difference plus the walk from the advanced cursors. */
  lemma WalkStep(decode: seq<byte> -> Decoded, left: seq<byte>, right: seq<byte>, leftPosition: nat, rightPosition: nat)
    requires MakesProgress(decode)
    requires leftPosition < |left| && rightPosition < |right|
    ensures var l, r := decode(left[leftPosition..]), decode(right[rightPosition..]);
            WalkFrom(decode, left, right, leftPosition, rightPosition) ==
              Plus(WalkFrom(decode, left, right, leftPosition + Advance(l), rightPosition + Advance(r)),
                   if l.codePoint != r.codePoint then 1 else 0)
  {
    var left', right' := left[leftPosition..], right[rightPosition..];
    var l, r := decode(left'), decode(right');
    if Advance(l) <= |left'| && Advance(r) <= |right'| {
      assert left'[Advance(l)..] == left[leftPosition + Advance(l)..];
      assert right'[Advance(r)..] == right[rightPosition + Advance(r)..];
    }
  }

  /** The generic path: two cursors, each advanced by what the decoder
      consumed (or by the magnitude of an invalid code point), counting the
      steps whose code points differ; the strings must end together. */
  method HammingDistance(decode: seq<byte> -> Decoded, left: seq<byte>, right: seq<byte>) returns (r: Result<nat>)
    requires MakesProgress(decode)
    ensures r == Walk(decode, left, right)
    ensures r == CompareCodePoints(CodePoints(decode, left), CodePoints(decode, right))
  {
    var leftLength, rightLength := |left|, |right|;
    var distance := 0;
    var leftPosition, rightPosition := 0, 0;
    assert left[0..] == left && right[0..] == right;
    while leftPosition < leftLength && rightPosition < rightLength
      invariant 0 <= leftPosition && 0 <= rightPosition
      invariant Walk(decode, left, right) == Plus(WalkFrom(decode, left, right, leftPosition, rightPosition), distance)
      decreases leftLength - leftPosition
    {
      var codePointLeft := decode(left[leftPosition..]);
      var codePointRight := decode(right[rightPosition..]);
      WalkStep(decode, left, right, leftPosition, rightPosition);
      var step := if codePointLeft.codePoint != codePointRight.codePoint then 1 else 0;
      PlusPlus(WalkFrom(decode, left, right, leftPosition + Advance(codePointLeft), rightPosition + Advance(codePointRight)), step, distance);
      leftPosition := leftPosition + Advance(codePointLeft);
      rightPosition := rightPosition + Advance(codePointRight);
      distance := distance + step;
    }
    WalkAtExit(decode, left, right, leftPosition, rightPosition);
    if leftPosition == leftLength && rightPosition == rightLength {
      r := Success(distance);
    } else {
      r := Failure(HammingLengthMismatch);
    }
    WalkComparesCodePoints(decode, left, right);
  }

  /** Once either cursor has reached or passed its end, the walk from there
      succeeds with nothing more exactly when both sit at their ends. */
  lemma WalkAtExit(decode: seq<byte> -> Decoded, left: seq<byte>, right: seq<byte>, leftPosition: nat, rightPosition: nat)
    requires MakesProgress(decode)
    requires leftPosition >= |left| || rightPosition >= |right|
    ensures WalkFrom(decode, left, right, leftPosition, rightPosition) ==
              if leftPosition == |left| && rightPosition == |right| then Success(0) else Failure(HammingLengthMismatch)
  {
    if leftPosition <= |left| && rightPosition <= |right| {
      assert left[leftPosition..] == [] || right[rightPosition..] == [];
    }
  }

  lemma PlusPlus(rest: Result<nat>, step: nat, distance: nat)
    ensures Plus(Plus(rest, step), distance) == Plus(rest, step + distance)
  {
  }

  /** Adds the distance counted so far to the distance of the rest. */
  function Plus(rest: Result<nat>, distance: nat): Result<nat> {
    match rest
    case Success(d) => Success(d + distance)
    case Failure(e) => Failure(e)
  }

  /** One step of the walk when both cursors sit on a single-byte code
      point: if the rest agrees with the ASCII path, so does the whole. */
  lemma WalkAsciiStep(decode: seq<byte> -> Decoded, left: seq<byte>, right: seq<byte>)
    requires MakesProgress(decode)
    requires left != [] && right != []
    requires decode(left) == Decoded(left[0] as int, 1) && decode(right) == Decoded(right[0] as int, 1)
    requires Walk(decode, left[1..], right[1..]) ==
               if |left| == |right| then Success(Mismatches(left[1..], right[1..])) else Failure(HammingLengthMismatch)
    ensures Walk(decode, left, right) ==
              if |left| == |right| then Success(Mismatches(left, right)) else Failure(HammingLengthMismatch)
  {
    var step := if left[0] != right[0] then 1 else 0;
    assert Walk(decode, left, right) == Plus(Walk(decode, left[1..], right[1..]), step);
    if |left| == |right| {
      MismatchesFront(left, right);
    }
  }

  /** A decoder that reads every ASCII byte as its own code point, one byte
      long, as UTF-8 does. */
  ghost predicate DecodesAsciiAsItself(decode: seq<byte> -> Decoded) {
    forall s :: |s| > 0 && s[0] < 128 ==> decode(s) == Decoded(s[0] as int, 1)
  }

  /** On ASCII input the generic path gives the ASCII path's answer. */
  lemma {:induction false} AsciiPathsAgree(decode: seq<byte> -> Decoded, left: seq<byte>, right: seq<byte>)
    requires MakesProgress(decode) && DecodesAsciiAsItself(decode)
    requires IsAscii(left) && IsAscii(right)
    ensures Walk(decode, left, right) ==
              if |left| == |right| then Success(Mismatches(left, right)) else Failure(HammingLengthMismatch)
    decreases |left|
  {
    if left != [] && right != [] {
      assert left[0] < 128 && right[0] < 128;
      var left', right' := left[1..], right[1..];
      assert IsAscii(left') && IsAscii(right') by {
        forall i | 0 <= i < |left'| ensures left'[i] < 128 { assert left'[i] == left[i + 1]; }
        forall i | 0 <= i < |right'| ensures right'[i] < 128 { assert right'[i] == right[i + 1]; }
      }
      AsciiPathsAgree(decode, left', right');
      WalkAsciiStep(decode, left, right);
    }
  }

  /** hamming_distance("karolin", "kathrin") == 3. */
  lemma {:induction false} HammingExample()
    ensures Mismatches("karolin", "kathrin") == 3
  {
    KarolinKathrin("karolin", "kathrin");
    assert "karolin"[..7] == "karolin" && "kathrin"[..7] == "kathrin";
  }

  /** The prefix counts of the example, one position at a time. */
  lemma {:induction false} KarolinKathrin(a: seq<char>, b: seq<char>)
    requires a == "karolin" && b == "kathrin"
    ensures Mismatches(a[..7], b[..7]) == 3
  {
    assert a[..1][..0] == a[..0] && b[..1][..0] == b[..0];
    assert Mismatches(a[..1], b[..1]) == 0;
    assert a[..2][..1] == a[..1] && b[..2][..1] == b[..1];
    assert Mismatches(a[..2], b[..2]) == 0;
    assert a[..3][..2] == a[..2] && b[..3][..2] == b[..2];
    assert Mismatches(a[..3], b[..3]) == 1;
    assert a[..4][..3] == a[..3] && b[..4][..3] == b[..3];
    assert Mismatches(a[..4], b[..4]) == 2;
    assert a[..5][..4] == a[..4] && b[..5][..4] == b[..4];
    assert Mismatches(a[..5], b[..5]) == 3;
    assert a[..6][..5] == a[..5] && b[..6][..5] == b[..5];
    assert Mismatches(a[..6], b[..6]) == 3;
    assert a[..7][..6] == a[..6] && b[..7][..6] == b[..6];
  }
}
