/** The positional kernels of Presto's string functions: substr on characters,
    substr on raw bytes, trail, starts_with and ends_with.

    A string is a sequence of characters of some type C. On the ASCII fast path
    C is the byte and a character index is a byte index; on the generic path C
    stands for the decoded code points, and the conversion of a character range
    to a byte range (getByteRange in StringCore.h) is not part of this model.
    A result that is a view into the input is the half-open index range it
    covers, so "the result is a slice of the input" is part of every type. */
module Positional {
  import opened Common

  /** A half-open range [first, last) of indices into the input. */
  datatype Range = Range(first: nat, last: nat) {
    predicate Within(n: nat) {
      first <= last <= n
    }

    predicate Contains(i: int) {
      first <= i < last
    }
  }

  /** What result.setEmpty() produces. */
  const Empty := Range(0, 0)

  /** The characters a range selects. */
  function Slice<C>(s: seq<C>, r: Range): seq<C>
    requires r.Within(|s|)
  {
    s[r.first..r.last]
  }

  /** The optional length argument of substr: absent means "to the end of the
      string" (the source defaults it to the largest value of its integer
      type, which always exceeds the number of characters left). */
  datatype Length = Unbounded | Limit(n: int)

  function Min(a: int, b: int): int {
    if a <= b then a else b
  }

  /** The SQL meaning of substr(s, start, length) for a string of
      numCharacters characters: does it select the character at 0-based
      index i, that is at 1-based position p = i + 1? A negative start counts
      from the end; a start that is zero, or that still lies before the first
      character after counting from the end, selects nothing. */
  predicate Selected(numCharacters: nat, start: int, length: Length, i: int) {
    var from := if start < 0 then numCharacters + start + 1 else start;
    var p := i + 1;
    && start != 0
    && 1 <= from
    && 1 <= p <= numCharacters
    && from <= p
    && (length.Unbounded? || p < from + length.n)
  }

  /** The range of the `length` characters that begin at 1-based position
      `start`. */
  function PositionRange(numCharacters: nat, start: int, length: int): (r: Range)
    requires 1 <= start && 0 <= length && start - 1 + length <= numCharacters
    ensures r.Within(numCharacters)
    ensures forall i :: r.Contains(i) <==> start <= i + 1 < start + length
  {
    Range(start - 1, start - 1 + length)
  }

  /** substr(string, start[, length]): the characters at the positions
      Selected picks, as a range inside the input. */
  function Substr<C>(s: seq<C>, start: int, length: Length): (r: Range)
    ensures r.Within(|s|)
    ensures forall i :: 0 <= i < |s| ==> (r.first <= i < r.last <==> Selected(|s|, start, length, i))
  {
    if start == 0 || (length.Limit? && length.n <= 0) then
      Empty
    else
      var numCharacters := |s|;
      var start := if start < 0 then numCharacters + start + 1 else start;
      if start <= 0 || start > numCharacters then
        Empty
      else
        var length :=
          if length.Unbounded? || numCharacters - start + 1 < length.n
          then numCharacters - start + 1
          else length.n;
        PositionRange(numCharacters, start, length)
  }

  /** A view into a VARBINARY value: the bytes [offset, offset + size). */
  datatype View = View(offset: nat, size: nat)

  /** substr on VARBINARY: the same sign and clamp rules, applied to byte
      offsets with no decoding. */
  function SubstrVarbinary(input: seq<byte>, start: int, length: Length): (v: View)
    ensures v.offset + v.size <= |input|
    ensures forall i :: 0 <= i < |input| ==>
              (v.offset <= i < v.offset + v.size <==> Selected(|input|, start, length, i))
  {
    if start == 0 || (length.Limit? && length.n <= 0) then
      View(0, 0)
    else
      var size := |input|;
      var start := if start < 0 then size + start + 1 else start;
      if start <= 0 || start > size then
        View(0, 0)
      else
        var length :=
          if length.Unbounded? || size - start + 1 < length.n then size - start + 1 else length.n;
        View(start - 1, length)
  }

  /** trail(string, N): the last N characters, or the whole string when it is
      shorter than N. */
  function Trail<C>(s: seq<C>, n: int): (r: Range)
    ensures r.Within(|s|)
    ensures n <= 0 ==> Slice(s, r) == []
    ensures n > 0 ==> Slice(s, r) == s[|s| - Min(n, |s|)..]
  {
    if n <= 0 then
      Empty
    else
      var numCharacters := |s|;
      var start := if n > numCharacters then 1 else numCharacters - n + 1;
      var adjustedLength := Min(n, numCharacters);
      PositionRange(numCharacters, start, adjustedLength)
  }

  /** starts_with(x, y): byte-wise comparison of y with the first |y| bytes
      of x. */
  function StartsWith(x: seq<byte>, y: seq<byte>): (r: bool)
    ensures r <==> |y| <= |x| && forall i :: 0 <= i < |y| ==> x[i] == y[i]
  {
    if |x| < |y| then false else x[..|y|] == y
  }

  /** ends_with(x, y): byte-wise comparison of y with the last |y| bytes of
      x. */
  function EndsWith(x: seq<byte>, y: seq<byte>): (r: bool)
    ensures r <==> |y| <= |x| && forall i :: 0 <= i < |y| ==> x[|x| - |y| + i] == y[i]
  {
    if |x| < |y| then false else x[|x| - |y|..] == y
  }

  /** substr(s, 1) and substr(s, 1, length(s)) return all of s. */
  lemma SubstrWholeString<C>(s: seq<C>)
    ensures Slice(s, Substr(s, 1, Unbounded)) == s
    ensures Slice(s, Substr(s, 1, Limit(|s|))) == s
  {
  }

  /** A negative start selects a suffix: substr(s, -k) is trail(s, k) as long
      as k does not exceed the length; beyond it substr is empty while trail
      returns the whole string. */
  lemma SubstrNegativeStartIsTrail<C>(s: seq<C>, k: int)
    requires 1 <= k
    ensures k <= |s| ==> Substr(s, -k, Unbounded) == Trail(s, k)
    ensures k > |s| ==> Slice(s, Substr(s, -k, Unbounded)) == [] && Slice(s, Trail(s, k)) == s
  {
  }

  /** The byte-oriented substr is the character substr on an ASCII string. */
  lemma SubstrVarbinaryIsAsciiSubstr(input: seq<byte>, start: int, length: Length)
    ensures var v := SubstrVarbinary(input, start, length);
            input[v.offset..v.offset + v.size] == Slice(input, Substr(input, start, length))
  {
  }

  /** starts_with holds exactly when x is y followed by something. */
  lemma StartsWithIsPrefix(x: seq<byte>, y: seq<byte>)
    ensures StartsWith(x, y) <==> exists z :: x == y + z
  {
    if StartsWith(x, y) {
      assert x == y + x[|y|..];
    }
  }

  /** ends_with holds exactly when x is something followed by y. */
  lemma EndsWithIsSuffix(x: seq<byte>, y: seq<byte>)
    ensures EndsWith(x, y) <==> exists z :: x == z + y
  {
    if EndsWith(x, y) {
      assert x == x[..|x| - |y|] + y;
    }
  }

  /** Worked examples of substr and trail. */
  lemma PositionalExamples()
    ensures Slice("Hello World", Substr("Hello World", 1, Limit(5))) == "Hello"
    ensures Slice("Hello World", Substr("Hello World", -5, Unbounded)) == "World"
    ensures Slice("abcdef", Trail("abcdef", 3)) == "def"
    ensures Slice("abcdef", Trail("abcdef", 10)) == "abcdef"
  {
  }
}
