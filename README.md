# Presto string kernels and the dwio writer lifecycle, in Dafny

This project models two pieces of Velox, the vectorized execution engine.

1. The per-value Presto string kernels in
   `velox/functions/prestosql/StringFunctions.h`:
   - `substr` on characters and on VARBINARY bytes;
   - `trail`, `starts_with` and `ends_with`;
   - `trim`/`ltrim`/`rtrim` with a custom set of trim characters;
   - `hamming_distance`, on the ASCII path and on the generic UTF-8 path;
   - `levenshtein_distance`.
2. The writer lifecycle in `velox/dwio/common/Writer.cpp`. It has five
   states, and `setState` accepts only the transitions that
   `checkStateTransition` allows.

Layout, one module per file:

- `common.dfy` (`Common`): bytes, the ASCII test, and the per-row error
  outcome (`Result`).
- `positional.dfy` (`Positional`): substr, substr on varbinary, trail,
  starts_with and ends_with. A result that the source returns as a
  zero-copy view into its input is an index `Range` or `View` inside the
  input. "The result is a slice of the input" is therefore part of every
  contract.
- `trim.dfy` (`Trim`): the custom-charset trim. The membership scan is a
  method with a loop.
- `hamming.dfy` (`Hamming`): both Hamming loops as methods.
  - The generic path takes the UTF-8 decoder as a parameter.
  - It is proved equal to the Hamming distance of the decoded code-point
    sequences.
  - On ASCII input it is proved equal to the ASCII path.
- `levenshtein.dfy` (`Levenshtein`): the rolling-row dynamic program over
  an array that is updated in place. It is proved equal to the standard
  unit-cost edit-distance recurrence.
- `writer.dfy` (`WriterLifecycle`): the transition check as a function,
  and `Writer` as a class.
  - `Writer` has a mutable `state` field and a ghost `history` of every
    state it has been in.
  - Its invariant says the history is a legal trace that starts at `Init`.

Positions are character positions. On the ASCII path a character is a byte.
On the generic path the kernels are generic over the character type, and
the input is its sequence of decoded characters.

The error message at `StringFunctions.h:256-257` speaks of non-ASCII
*inputs*, but the check at 253 tests the trim characters. The model follows
the check: the generic entry point fails exactly when the trim characters
are not all ASCII, whatever the input. The ASCII entry point (`callAscii`)
performs no check at all. When the engine picks `callAscii` is decided
outside the modelled files, so the model states no rule for it:
`Trim.TrimAscii` accepts any trim characters.

## Model

| member | source | states |
|---|---|---|
| `Positional.Substr` | velox/functions/prestosql/StringFunctions.h:150-187 | The result lies inside the input. It holds exactly the characters whose 1-based position p satisfies start' <= p < start' + length, where start' is start, or numCharacters + start + 1 for a negative start. The result is empty when start is 0, when the length is <= 0, or when start' <= 0 or start' > numCharacters. Clamping the length to the end follows from this. |
| `Positional.PositionRange` | velox/functions/prestosql/StringFunctions.h:181-182 | The range lies inside the input and contains exactly the 0-based indices i whose 1-based position i + 1 satisfies start <= i + 1 < start + length. |
| `Positional.SubstrWholeString` | velox/functions/prestosql/StringFunctions.h:176-186 | substr(s, 1) and substr(s, 1, length(s)) both return all of s. |
| `Positional.SubstrNegativeStartIsTrail` | velox/functions/prestosql/StringFunctions.h:165-173 | For 1 <= k <= length(s), substr(s, -k) is the same range as trail(s, k). For k > length(s), substr is empty while trail returns all of s. |
| `Positional.SubstrVarbinary` | velox/functions/prestosql/StringFunctions.h:197-223 | The view [offset, offset+size) lies inside the bytes, so 0 <= start-1 <= start-1+length <= size. It holds exactly the bytes that the substr position rule selects. |
| `Positional.SubstrVarbinaryIsAsciiSubstr` | velox/functions/prestosql/StringFunctions.h:202-222 | substr on varbinary returns the same bytes as character substr on the same sequence: the byte path and the ASCII path agree. |
| `Positional.Trail` | velox/functions/prestosql/StringFunctions.h:81-104 | N <= 0 gives an empty result. Otherwise the result is the last min(N, numCharacters) characters, so N >= numCharacters gives the whole string. |
| `Positional.StartsWith` | velox/functions/prestosql/StringFunctions.h:322-332 | False when y is longer than x. Otherwise true iff every byte of y equals the byte of x at the same index. |
| `Positional.EndsWith` | velox/functions/prestosql/StringFunctions.h:339-350 | False when y is longer than x. Otherwise true iff y equals the last \|y\| bytes of x, byte by byte. |
| `Positional.StartsWithIsPrefix` | velox/functions/prestosql/StringFunctions.h:326-331 | starts_with(x, y) holds iff x == y + z for some z. |
| `Positional.EndsWithIsSuffix` | velox/functions/prestosql/StringFunctions.h:343-349 | ends_with(x, y) holds iff x == z + y for some z. |
| `Positional.PositionalExamples` | velox/functions/prestosql/StringFunctions.h:107-121 | substr("Hello World", 1, 5) = "Hello", substr("Hello World", -5) = "World", trail("abcdef", 3) = "def" and trail("abcdef", 10) = "abcdef". |
| `Trim.IsTrimCharacter` | velox/functions/prestosql/StringFunctions.h:274-281 | The linear scan returns true iff the byte occurs among the trim characters. |
| `Trim.LeadingTrimmable` | velox/functions/prestosql/StringFunctions.h:274-281 | Counts the bytes at the front that are trim characters. The byte after them, if any, is not a trim character. |
| `Trim.TrailingTrimmable` | velox/functions/prestosql/StringFunctions.h:274-281 | Counts the bytes at the back that are trim characters. The byte before them, if any, is not a trim character. |
| `Trim.TrimAscii` | velox/functions/prestosql/StringFunctions.h:268-282 | The result lies inside the input, and every byte removed is a trim character. The front is kept when leftTrim is false, and the back when rightTrim is false. On a trimmed side the result does not start (or end) with a trim character. |
| `Trim.TrimCustom` | velox/functions/prestosql/StringFunctions.h:249-259 | Fails with the unsupported error iff the trim characters are not all ASCII. Otherwise it returns the ASCII trim. |
| `Trim.TrimIdempotent` | velox/functions/prestosql/StringFunctions.h:268-282 | Trimming a trimmed result again removes nothing. |
| `Trim.TrimKeepsAll` | velox/functions/prestosql/StringFunctions.h:268-282 | Trim returns the whole input iff the input is empty or each trimmed end is not a trim character. |
| `Hamming.Mismatches` | velox/functions/prestosql/StringFunctions.h:496-500 | The count of differing positions is at most the length. |
| `Hamming.MismatchesZeroIffEqual` | velox/functions/prestosql/StringFunctions.h:496-500 | The count of differing positions is 0 iff the strings are equal. |
| `Hamming.MismatchesCons` | velox/functions/prestosql/StringFunctions.h:457-474 | Counting differences front to back, as the generic loop does, gives the same count as counting back to front. |
| `Hamming.MismatchesFront` | velox/functions/prestosql/StringFunctions.h:457-474 | The count is the first position's difference plus the count of the rest. |
| `Hamming.MismatchesSymmetric` | velox/functions/prestosql/StringFunctions.h:482-502 | The count does not depend on the order of the two strings. |
| `Hamming.HammingExample` | velox/functions/prestosql/StringFunctions.h:496-500 | hamming_distance("karolin", "kathrin") = 3. |
| `Hamming.HammingDistanceAscii` | velox/functions/prestosql/StringFunctions.h:482-502 | Fails when the byte lengths differ. Otherwise it returns the number of indices i with left[i] != right[i]. |
| `Hamming.HammingDistance` | velox/functions/prestosql/StringFunctions.h:447-480 | The two-cursor loop, where each cursor advances by the decoded size or by -codePoint, equals Walk. It is an error unless both inputs decode completely into equally many code points. In that case the result is the number of positions whose decoded values differ. |
| `Hamming.WalkStep` | velox/functions/prestosql/StringFunctions.h:460-474 | One turn of the generic loop: the walk from the current cursors is this step's difference plus the walk from the advanced cursors. |
| `Hamming.WalkAtExit` | velox/functions/prestosql/StringFunctions.h:475-477 | Once either cursor has reached or passed its end, the walk succeeds with nothing more iff both cursors sit exactly at their ends. |
| `Hamming.WalkComparesCodePoints` | velox/functions/prestosql/StringFunctions.h:457-477 | The cursor walk fails iff either input does not decode completely or the code-point counts differ. Otherwise it counts the unequal code-point pairs. |
| `Hamming.WalkAsciiStep` | velox/functions/prestosql/StringFunctions.h:457-474 | When both cursors are on a one-byte code point, one step of the walk adds that pair's difference to the distance of the rest. |
| `Hamming.AsciiPathsAgree` | velox/functions/prestosql/StringFunctions.h:447-502 | Take a decoder that reads every ASCII byte as itself with size 1. On ASCII inputs, the generic path then gives exactly the ASCII path's result, error included. |
| `Levenshtein.LevenshteinDistance` | velox/functions/prestosql/StringFunctions.h:540-563 | Fails iff both inputs are non-empty and the product of their lengths exceeds 1,000,000. Otherwise it returns the unit-cost edit distance of the two inputs. This covers the argument swap and the empty-input shortcut. |
| `Levenshtein.RollingRowDistance` | velox/functions/prestosql/StringFunctions.h:564-590 | The row starts as 1, 2, ..., \|right\|. After one update per character of left, the last cell is the edit distance of the two inputs. |
| `Levenshtein.StartRow` | velox/functions/prestosql/StringFunctions.h:571-576 | Saves the old first cell as the next diagonal. It replaces that cell with the distance from the first i + 1 characters of left to the first character of right, and leaves the rest of the row unchanged. |
| `Levenshtein.UpdateRow` | velox/functions/prestosql/StringFunctions.h:570-589 | One outer iteration in place: a row that holds the distances from the first i characters of left to every non-empty prefix of right ends up holding them for the first i + 1 characters. |
| `Levenshtein.FirstCell` | velox/functions/prestosql/StringFunctions.h:572-576 | A match gives i. Otherwise the result is min(i, old first cell) + 1. Either way it equals the recurrence's value for the new first cell. |
| `Levenshtein.Cell` | velox/functions/prestosql/StringFunctions.h:578-587 | A match takes the diagonal unchanged. Otherwise the result is the minimum of the three neighbours plus one. Either way it equals the recurrence's value for that cell. |
| `Levenshtein.MatchTakesDiagonal` | velox/functions/prestosql/StringFunctions.h:579-580 | When the last characters match, the distance equals the distance without them, so the source's shortcut loses nothing. |
| `Levenshtein.DistExtendRight` | velox/functions/prestosql/StringFunctions.h:582-585 | Adding one character to right changes the distance by at most one in either direction. |
| `Levenshtein.DistExtendLeft` | velox/functions/prestosql/StringFunctions.h:582-585 | Adding one character to left lowers the distance by at most one. |
| `Levenshtein.DistSymmetric` | velox/functions/prestosql/StringFunctions.h:540-548 | The distance between prefixes does not depend on the order of the two arguments. |
| `Levenshtein.DistanceSymmetric` | velox/functions/prestosql/StringFunctions.h:540-548 | distance(a, b) == distance(b, a), so swapping the arguments does not change the result. |
| `Levenshtein.DistToSelf` | velox/functions/prestosql/StringFunctions.h:564-590 | Every prefix is at distance 0 from itself. |
| `Levenshtein.DistanceToSelf` | velox/functions/prestosql/StringFunctions.h:564-590 | levenshtein(s, s) == 0. |
| `Levenshtein.DistZeroIffEqual` | velox/functions/prestosql/StringFunctions.h:564-590 | The distance between two prefixes is 0 iff the prefixes are equal. |
| `Levenshtein.PrefixesEqualStep` | velox/functions/prestosql/StringFunctions.h:579-580 | Prefixes that end in the same character are equal iff they are equal without it. |
| `Levenshtein.DistanceZeroIffEqual` | velox/functions/prestosql/StringFunctions.h:564-590 | The distance is 0 iff the two inputs are equal. |
| `Levenshtein.DistLowerBound` | velox/functions/prestosql/StringFunctions.h:549-551 | The distance is at least the difference of the prefix lengths. |
| `Levenshtein.DistUpperBound` | velox/functions/prestosql/StringFunctions.h:566-568 | The distance is at most the longer prefix length. |
| `Levenshtein.DistanceBounds` | velox/functions/prestosql/StringFunctions.h:549-551 | The distance lies between the difference of the lengths and the longer length. With one input empty, it is the other input's size. |
| `Levenshtein.DistAtMostHamming` | velox/functions/prestosql/StringFunctions.h:582-585 | For equally long prefixes, the edit distance is at most their Hamming distance. |
| `Levenshtein.DistanceAtMostHamming` | velox/functions/prestosql/StringFunctions.h:582-585 | For equally long inputs, the edit distance is at most the Hamming distance. |
| `Levenshtein.LevenshteinExample` | velox/functions/prestosql/StringFunctions.h:564-590 | levenshtein_distance("kitten", "sitting") = 3. |
| `WriterLifecycle.CheckStateTransition` | velox/dwio/common/Writer.cpp:21-55 | A rejected transition fails with an error that names both states. |
| `WriterLifecycle.LegalTargets` | velox/dwio/common/Writer.cpp:21-55 | From kInit the only legal target is kRunning. From kRunning and from kFinishing the legal targets are exactly kAborted, kClosed and kFinishing. Every transition out of kClosed or kAborted fails. |
| `WriterLifecycle.TransitionRaisesRank` | velox/dwio/common/Writer.cpp:21-55 | Every legal transition moves strictly forward through Init < Running < Finishing < Closed/Aborted, except the re-entry of kFinishing. |
| `WriterLifecycle.TraceRankMonotone` | velox/dwio/common/Writer.cpp:21-55 | Along any legal trace the rank never drops. No later state is kInit, and nothing follows kClosed or kAborted. |
| `WriterLifecycle.AllStatesReachable` | velox/dwio/common/Writer.cpp:23-43 | INIT, RUNNING, FINISHING (re-entered), CLOSED and INIT, RUNNING, ABORTED are legal traces. |
| `WriterLifecycle.StateString` | velox/dwio/common/Writer.cpp:57-72 | Every state has a non-empty name. |
| `WriterLifecycle.StateStringInjective` | velox/dwio/common/Writer.cpp:57-72 | The five names INIT, RUNNING, FINISHING, CLOSED and ABORTED are pairwise distinct. |
| `WriterLifecycle.RunningMeansJustStarted` | velox/dwio/common/Writer.cpp:74-76 | For a valid writer, isRunning holds iff its history is exactly kInit, kRunning: nothing leads back to kRunning. |
| `WriterLifecycle.FinishingMeansFinishingSinceRunning` | velox/dwio/common/Writer.cpp:78-80 | For a valid writer, isFinishing holds iff its history is kInit, kRunning followed by one or more kFinishing and nothing else. |
| `WriterLifecycle.Writer.CheckRunning` | velox/dwio/common/Writer.cpp:82-88 | Passes iff the state is kRunning. Otherwise it fails, naming the current state. |
| `WriterLifecycle.Writer.SetState` | velox/dwio/common/Writer.cpp:90-93 | Assigns the new state only when the transition check passes. An illegal request fails and leaves the state and its history unchanged. The writer's history stays a legal trace from kInit. |

## Left out

- NormalizeFunction: it calls utf8proc_map, whose Unicode tables are foreign code.
- XxHash64StringFunction: it calls the external XXH64.
- ChrFunction, CodePointFunction, PadFunctionBase, StrPosFunctionBase and the whitespace trims: their bodies are in `StringImpl.h`, which is not part of this model.
- LengthFunction and LengthVarbinaryFunction: character counting on the generic path is in `StringImpl.h`, which is not part of this model. On the ASCII path the length is the byte count, `|s|`.
- getByteRange (`StringCore.h`) is not part of this model. Character ranges are not converted to byte ranges; positions are character indices throughout.
- trimAscii (`StringImpl.h`) is not part of this model. `Trim.TrimAscii` models it by what the source's documentation says trim does: drop the matching bytes from the selected ends.
- The UTF-8 decoder (utf8proc_codepoint) is a parameter of the generic Hamming path. stringToCodePoints, used by the generic Levenshtein path, is not modelled: `Levenshtein.LevenshteinDistance` takes the already decoded characters.
- Hamming.HammingDistance: it assumes that every decoder step on non-empty input advances the cursor by at least one byte (`MakesProgress`). This is an assumption about the decoder, which is not part of this model; without it the source loop would not terminate.
- Integer widths are not modelled:
  - the templated position type `I`;
  - the int64 distance;
  - the int32 row of distances;
  - the size_t product of the lengths.
  All are unbounded integers here. An absent substr length is `Unbounded` rather than the largest value of `I`; since that value is never smaller than the remaining characters, the result is the same.
- Zero-copy aliasing (`reuse_strings_from_arg`, `setNoCopy`) and buffer lifetime: results are index ranges into the input, and ownership is not modelled.
- Error message texts of the VELOX_* macros: an error is a `Failure` with a kind.
- Writer.h is not part of this model. The constructor starting in kInit, and the unreachable default branch of stateString for values outside the enumeration, are therefore taken as given.
- The per-batch choice between the ASCII and the generic entry point is made by the caller and is not modelled. Both entry points are modelled where the source has both.
