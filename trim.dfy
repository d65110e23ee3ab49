/** trim, ltrim and rtrim with a custom set of trim characters. The result is
    a view into the input, so it is modelled as a range of byte indices. */
module Trim {
  import opened Common
  import opened Positional

  /** The membership test the custom-charset trim passes to trimAscii: a
      linear scan of the trim characters that stops at the first match. */
  method IsTrimCharacter(c: byte, chars: seq<byte>) returns (found: bool)
    ensures found <==> c in chars
  {
    for i := 0 to |chars|
      invariant c !in chars[..i]
    {
      if c == chars[i] {
        return true;
      }
    }
    assert chars[..|chars|] == chars;
    return false;
  }

  /** How many bytes at the front of s are trim characters. */
  function LeadingTrimmable(s: seq<byte>, chars: seq<byte>): (k: nat)
    ensures k <= |s|
    ensures forall i :: 0 <= i < k ==> s[i] in chars
    ensures k < |s| ==> s[k] !in chars
  {
    if s == [] || s[0] !in chars then 0 else 1 + LeadingTrimmable(s[1..], chars)
  }

  /** How many bytes at the back of s are trim characters. */
  function TrailingTrimmable(s: seq<byte>, chars: seq<byte>): (k: nat)
    ensures k <= |s|
    ensures forall i :: |s| - k <= i < |s| ==> s[i] in chars
    ensures k < |s| ==> s[|s| - k - 1] !in chars
  {
    if s == [] || s[|s| - 1] !in chars then 0 else 1 + TrailingTrimmable(s[..|s| - 1], chars)
  }

  /** trimAscii with the membership predicate: drop the trim characters at
      the front (when leftTrim) and at the back (when rightTrim). Every
      dropped byte is a trim character, and on each trimmed side the result
      neither starts nor ends with one. */
  function TrimAscii(input: seq<byte>, chars: seq<byte>, leftTrim: bool, rightTrim: bool): (r: Range)
    ensures r.Within(|input|)
    ensures forall i :: 0 <= i < r.first ==> input[i] in chars
    ensures forall i :: r.last <= i < |input| ==> input[i] in chars
    ensures !leftTrim ==> r.first == 0
    ensures !rightTrim ==> r.last == |input|
    ensures leftTrim && r.first < r.last ==> input[r.first] !in chars
    ensures rightTrim && r.first < r.last ==> input[r.last - 1] !in chars
  {
    var first := if leftTrim then LeadingTrimmable(input, chars) else 0;
    var last := if rightTrim then |input| - TrailingTrimmable(input, chars) else |input|;
    if last < first then Range(first, first) else Range(first, last)
  }

  /** The generic entry point: custom trim characters that are not all ASCII
      are refused with an unsupported error; otherwise it is the ASCII trim. */
  function TrimCustom(input: seq<byte>, chars: seq<byte>, leftTrim: bool, rightTrim: bool): (r: Result<Range>)
    ensures r.Failure? <==> !IsAscii(chars)
    ensures r.Failure? ==> r.error == UnsupportedTrimCharacters
    ensures r.Success? ==> r.value == TrimAscii(input, chars, leftTrim, rightTrim)
  {
    if IsAscii(chars) then Success(TrimAscii(input, chars, leftTrim, rightTrim))
    else Failure(UnsupportedTrimCharacters)
  }

  /** Trimming is idempotent: trimming the result again removes nothing. */
  lemma TrimIdempotent(input: seq<byte>, chars: seq<byte>, leftTrim: bool, rightTrim: bool)
    ensures var t := Slice(input, TrimAscii(input, chars, leftTrim, rightTrim));
            TrimAscii(t, chars, leftTrim, rightTrim) == Range(0, |t|)
  {
    var r := TrimAscii(input, chars, leftTrim, rightTrim);
    var t := Slice(input, r);
    var r' := TrimAscii(t, chars, leftTrim, rightTrim);
    if t != [] {
      assert t[0] == input[r.first] && t[|t| - 1] == input[r.last - 1];
    }
  }

  /** Nothing is trimmed exactly when the trimmed ends are not trim
      characters. */
  lemma TrimKeepsAll(input: seq<byte>, chars: seq<byte>, leftTrim: bool, rightTrim: bool)
    ensures TrimAscii(input, chars, leftTrim, rightTrim) == Range(0, |input|) <==>
              input == [] ||
              ((!leftTrim || input[0] !in chars) && (!rightTrim || input[|input| - 1] !in chars))
  {
  }
}
