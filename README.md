# makepass, modelled in Dafny

makepass is an xkcd-936 style password generator. It draws `word_count` distinct words at
random from a filtered word list. It appends an optional digit and an optional special
character. It then takes `sample_size` such candidates and returns the first one whose
length lies in `[min_length, max_length]`. On request it also estimates the password's
entropy. That estimate is the sum of log2 of the word-selection space, the digit space and
the special-character space, plus a correction log2(success_size / sample_size).

This project models the core of that program, `src/makepass/makepass.py`, and proves
properties of the model:

- `wrappers.dfy`: `Option` and `Result`.
- `filtering.dfy` (module `Filtering`) covers the two stream filters.
  - `constrain_word_length` is the inclusive length filter `Keep`. The method `ConstrainLength` runs its loop.
  - `non_repeating` is `Unique`. The method `NonRepeating` runs its loop with the `seen` set.
- `parts.dfy` (module `Parts`) covers the pieces of a password.
  - `Assemble` glues them together as `''.join` does.
  - `password_parts` is a hand-written scanner for `^((?:[A-Z][a-z]*)+)([0-9]?)([^a-zA-Z0-9]?)$`, in two versions.
  - `PasswordPartsAsWritten` follows Python's `$`, which also matches just before a final newline.
  - `PasswordParts` matches only at the very end of the string. It is the corrected parser, and the round-trip rows are about it.
- `generation.dfy` (module `Generation`) covers `gen_alpha_passwords` and `base_passwords`.
  - Each runs over an explicit, finite supply of random draws.
  - `SampleFrom` is the `islice(passwords, sample_size)` that main takes.
- `entropy.dfy` (module `Entropy`) covers the entropy functions. Each one is the integer choice-space size, or the ratio, that log2 is applied to.
- `lengthfmt.dfy` (module `LengthFormat`) covers `lengthfmt` and `str` of an int.
- `makepass.dfy` (module `MakePass`) covers main from line 241 on.
  - Validation is the function `Validate` and the imperative `CheckArgs`.
  - Selection is the function `Select` and the imperative `Sample`. `Sample` consumes the filtered stream with `next` and then `count_iterator`.
  - `Run` composes the two and returns either the password or the error main returns or raises.
  - It also holds the message strings.

Modelling choices:

- **Randomness.** A `Draws` value holds three sequences: the shared word stream, the digit stream and the special-character stream.
  - The word stream is consumed from a cursor.
  - Candidate `j` takes digit `j` and special character `j`, as `zip` does.
  - A supply that runs dry ends the sample early.
- **Infinity.** `float('inf')` as an upper bound is `None` in `Bound = Option<int>`.
- **Truthiness.** The defaulting of `min_length` and `max_length` (lines 244-250) follows Python truthiness, so 0 counts as missing.
- **Leftover None.** The two argument combinations that leave a `None` for the comparison on line 252 raise `TypeError` in Python. The model's error for this is `NoneComparison`.
- **Empty word set.** `log2(0)` on line 301 raises `ValueError`, modelled as `EmptyWordSet`. The same goes for a log2 of a non-positive number in the estimate, modelled as `EntropyUndefined`.
- **Possible sizes.** Lines 258-267 count the special character whenever `append_char` is set. This holds even when an empty `special_set` means `base_passwords` appends none (see Findings).
  - `ExtraChars`, `MinPossibleSize` and `MaxPossibleSize` keep that count, and so `CheckLengths`, `Validate`, `CheckArgs`, `Expected` and `Run` model main as written.
  - `CheckLengthsCorrected` runs the same checks on `Effective(args)`, the arguments with `append_char` honoured only for a non-empty `special_set`.
- **Character classes.** `\s` in line 294 is Python's `str.isspace` set. `\d` is taken as the ASCII digits.

## Model

| member | source | states |
|---|---|---|
| Filtering.ConstrainLength | src/makepass/makepass.py:34-41 | the generator loop yields exactly the filtered stream `Keep(items, lo, hi)` |
| Filtering.KeepCounts | src/makepass/makepass.py:34-41 | every item with `min_len <= len <= max_len` is kept as often as it occurs; no other item is kept |
| Filtering.KeepMembers | src/makepass/makepass.py:34-41 | an item is in the output iff it is in the input and in range |
| Filtering.KeepSubsequence | src/makepass/makepass.py:34-41 | the output keeps the input order |
| Filtering.KeepAppend | src/makepass/makepass.py:34-41 | filtering a concatenated stream filters each part in turn |
| Filtering.KeepNoLonger | src/makepass/makepass.py:34-41 | the filter never lengthens the stream |
| Filtering.KeepHead | src/makepass/makepass.py:34-41 | the first output is the first input item in range; every item before it is out of range |
| Filtering.NonRepeating | src/makepass/makepass.py:51-60 | the loop with its `seen` set yields exactly `Unique(xs)` |
| Filtering.UniqueStep | src/makepass/makepass.py:57-60 | one more element is appended iff it has not been seen |
| Filtering.UniqueMembers | src/makepass/makepass.py:51-60 | the output holds exactly the consumed elements |
| Filtering.UniqueExactlyOnce | src/makepass/makepass.py:51-60 | every consumed element appears in the output exactly once |
| Filtering.UniqueNoDuplicates | src/makepass/makepass.py:51-60 | the output has no duplicates |
| Filtering.UniqueSubsequence | src/makepass/makepass.py:51-60 | the output is an order-preserving subsequence of the input |
| Filtering.UniqueFirstOccurrenceOrder | src/makepass/makepass.py:51-60 | output elements come in the order of their first occurrence in the input |
| Filtering.UniquePrefix | src/makepass/makepass.py:51-60 | consuming more input only extends the output |
| Filtering.UniqueLength | src/makepass/makepass.py:51-60 | the output is as long as the number of distinct consumed elements |
| Filtering.UniqueBounded | src/makepass/makepass.py:51-60 | a stream drawn from a pool yields no more elements than the pool has |
| Generation.TakeDistinct | src/makepass/makepass.py:63-73 | one turn of the `while True` loop gives `Stem`: the first `word_count` distinct words and the new stream position |
| Generation.StemFromSpec | src/makepass/makepass.py:63-73 | continuing a turn from any point reached so far gives the first `k` distinct words and stops at the draw that completes them |
| Generation.StemSpec | src/makepass/makepass.py:63-73 | the words are the first `k` distinct draws, in draw order, read no further than needed; none are produced iff the stream holds fewer than `k` distinct words |
| Generation.StemWords | src/makepass/makepass.py:63-73 | the words of an alpha password are pairwise distinct draws of the stream |
| Generation.StemNeedsEnoughWords | src/makepass/makepass.py:63-73 | with fewer than `word_count` distinct words in the set, no alpha password completes |
| Generation.NextCandidate | src/makepass/makepass.py:76-86 | drawing one candidate consumes the word stream, then one digit, then one special character, as `NextParts` defines |
| Generation.PasswordsCons | src/makepass/makepass.py:86 | `map(''.join, …)` distributes over a stream's head and tail |
| Generation.SampleShape | src/makepass/makepass.py:76-86 | each candidate has `word_count` distinct words; a digit iff `append_numeral`; a special character iff `special_chars` is non-empty. With genuine draws the words are from the set, the digit is a digit and the character is from `special_chars` |
| Generation.SampleNeedsEnoughWords | src/makepass/makepass.py:63-86 | from a set with fewer than `word_count` distinct words the sample is empty |
| Generation.SampleParsesBack | src/makepass/makepass.py:76-101 | with capitalised words and non-alphanumeric special characters, `password_parts` recovers each candidate's parts |
| Generation.JoinLength | src/makepass/makepass.py:73 | words of length lo..hi join to a stem of length between count·lo and count·hi |
| Generation.CandidateLength | src/makepass/makepass.py:258-267 | a candidate's length is its words' length plus one per appended character, so it lies between the possible sizes |
| Parts.LowerRun | src/makepass/makepass.py:94 | `[a-z]*` consumes the longest lowercase prefix |
| Parts.ScanNumeral | src/makepass/makepass.py:94 | `([0-9]?)` splits off an optional digit, losing nothing, and greedily: a digit is taken iff the rest starts with one |
| Parts.ScanWordsJoin | src/makepass/makepass.py:94-96 | the scanned words joined, then the rest, give back the input |
| Parts.ScanWordsWords | src/makepass/makepass.py:96 | every scanned word matches `[A-Z][a-z]*` |
| Parts.ScanWordsRest | src/makepass/makepass.py:94 | the scan stops at a character that cannot continue the word group |
| Parts.ScanJoin | src/makepass/makepass.py:94-96 | scanning joined words followed by a non-letter gives back exactly those words |
| Parts.ParseAssembled | src/makepass/makepass.py:92-101 | parsing the assembly of well-formed parts returns exactly those parts |
| Parts.ParsedAssembles | src/makepass/makepass.py:92-101 | whatever the corrected `password_parts` accepts is well formed and assembles back to the input |
| Parts.PasswordPartsRoundTrip | src/makepass/makepass.py:92-101 | the corrected `password_parts(s)` returns `p` iff `p` is well formed and assembles to `s`; every other string raises the error |
| Parts.AsWrittenAgreesOnAssembled | src/makepass/makepass.py:94 | on every well-formed password the pattern as written gives the same parts |
| Parts.TrailingNewlineAccepted | src/makepass/makepass.py:94 | as written, `"Apple!\n"` parses into parts that assemble to `"Apple!"`; the corrected parser rejects it |
| Entropy.WordsetSpace | src/makepass/makepass.py:115-122 | the space is N·(N−1)·…·(N−k+1) ≥ 1 when k ≤ N; otherwise there is none (a math domain error) |
| Entropy.NumeralSpace | src/makepass/makepass.py:125-129 | 10 with a numeral; 1 (0 bits) exactly when there is none |
| Entropy.SpecialCharSpace | src/makepass/makepass.py:132-136 | `len(special_chars)`, or 1 when empty; it is 1 (0 bits) exactly when the set has at most one character |
| Entropy.SampledRatio | src/makepass/makepass.py:139-158 | success/sample is defined iff both are positive; it is ≤ 1 iff success ≤ sample, and = 1 (0 bits) iff they are equal |
| Entropy.EstimateEntropy | src/makepass/makepass.py:161-178 | the estimate is defined iff k ≤ N and both sample sizes are positive |
| Entropy.FallingFactorialPositive | src/makepass/makepass.py:115-122 | the space is positive whenever k ≤ N |
| Entropy.FallingFactorialVanishes | src/makepass/makepass.py:115-122 | with k > N one factor is 0, so log2 has no valid value |
| Entropy.WordsetSpaceGrowsWithCount | src/makepass/makepass.py:115-122 | for k < N, one more word never shrinks the space. It grows strictly iff k + 1 < N, because the last factor N − k is 1 at k = N − 1 |
| Entropy.WordsetSpaceGrowsWithSize | src/makepass/makepass.py:115-122 | for fixed 1 ≤ k ≤ N a larger set gives a strictly larger space |
| Entropy.WordsetSpaceBelowPower | src/makepass/makepass.py:117-122 | drawing without repetition gives at most N^k choices, and fewer once k ≥ 2 |
| Entropy.EstimateWithinUnconstrained | src/makepass/makepass.py:161-178 | with 1 ≤ success ≤ sample the estimate is at most the unconstrained space, and equals it when every candidate succeeds |
| LengthFormat.LengthPhrase | src/makepass/makepass.py:191-207 | the five-way case split; the phrase admits exactly the positive lengths in [min, max]; "exactly" iff min = max; "any number of" iff min = 1 and max = ∞; "up to" iff min = 1 and max is finite and ≠ min; "at least" iff min ≠ 1 and max = ∞; "between" iff min ≠ 1 and max is finite and ≠ min |
| LengthFormat.DecimalRoundTrip | src/makepass/makepass.py:197-207 | `str(n)` of a non-negative int is a non-empty string of digits, with no leading zero, that denotes n |
| MakePass.DefaultLengths | src/makepass/makepass.py:244-252 | both missing gives (24, ∞); a truthy bound is kept; a lone max copies into min; a lone min makes max ∞. Two given bounds that are both truthy or both 0 are kept as they are. A leftover None raises exactly for (None, 0) and (0, None) |
| MakePass.FirstInvalidSpecial | src/makepass/makepass.py:294 | no match iff no character is a letter, digit or whitespace; otherwise the first such character |
| MakePass.CheckLengths | src/makepass/makepass.py:241-284 | the checks come in the source's order, with the possible sizes counting `append_char` as written. The min_word/max_word error comes iff min_word > max_word. Otherwise a defaulting error is passed on, and defaulted bounds out of order give the length-order error. With ordered bounds, a minimum possible size above the defaulted max gives "minumum possible size" with that size and max, and only then. Once that check passes, a maximum possible size below the clamped min gives "maximum possible size" with that size and min, and only then. Otherwise the result is success: the clamped min and defaulted max, with 1 ≤ min ≤ max and both possible sizes admitted |
| MakePass.Validate | src/makepass/makepass.py:241-301 | every check in order. A length error is returned first. Next comes the first refused character of the effective special set. Then the word set raises iff the filtered list is empty, and with none of these errors the result is success. A bad character is one of `special_set` with `append_char` set. Success gives a configuration satisfying `ValidConfig`, with each field tied to the arguments |
| MakePass.ValidWordSet | src/makepass/makepass.py:286-288 | every word of the filtered word set has a length within [min_word, max_word] |
| MakePass.ImpossibleConstraintsJustified | src/makepass/makepass.py:258-284 | once `CheckLengthsCorrected` reports either possible-size error, no candidate of word_count words of length min_word..max_word, with the numeral and special character `base_passwords` gives it, has a length allowed by the clamped min and defaulted max |
| MakePass.PossibleSizeAsWrittenOvercounts | src/makepass/makepass.py:258-276 | as written, `append_char` with `special_set = ""`, one word of length 4 and max_length 4 gives a minimum possible size of 5, so main and the model return "minumum possible size (5)" with max 4. Yet the candidate "Word" has an allowed length, and `CheckLengthsCorrected` accepts the arguments |
| MakePass.MaxPossibleSizeAsWrittenOvercounts | src/makepass/makepass.py:263-284 | as written, four words of at most 8 letters, a numeral, `append_char` with `special_set = ""` and min_length 34 pass the size checks (maximum possible size 34). Yet every candidate of a valid configuration is at most 33 long, so the run ends with "Couldn't generate password matching constraints". `CheckLengthsCorrected` refuses the arguments with maximum possible size 33 |
| MakePass.CheckLengthsCorrected | src/makepass/makepass.py:258-284 | the size checks with the special character counted only when `base_passwords` appends one. They agree with `CheckLengths` unless `append_char` is set with an empty `special_set`. Then a corrected success is an as-written success or a "minumum possible size" error, and an as-written success stays one or becomes a "maximum possible size" error. The min_word/max_word error still comes iff min_word > max_word |
| MakePass.Effective | src/makepass/makepass.py:83-84 | the arguments as `base_passwords` sees them: the extra characters count the special character only with `append_char` and a non-empty `special_set`, and every other argument the checks read is unchanged |
| MakePass.SelectFirstAllowed | src/makepass/makepass.py:317-338 | the password is the first sampled candidate with an allowed length. A report comes iff an estimate is requested. success_size is the number of allowed candidates in the sample, 1 ≤ success_size ≤ sample_size, and the estimate is at most the unconstrained space |
| MakePass.SelectNoMatch | src/makepass/makepass.py:323-326 | "Couldn't generate password" comes iff no sampled candidate has an allowed length |
| MakePass.SelectEntropyDefined | src/makepass/makepass.py:328-338 | with a valid configuration and genuine draws, the estimate of a successful run is always defined |
| MakePass.ReturnedPasswordShape | src/makepass/makepass.py:310-326 | the returned password is a sampled candidate of `word_count` distinct words from the set, a digit iff a numeral is appended, and a character from the special set iff it is non-empty. `password_parts` recovers its parts when the words are capitalised |
| MakePass.CheckArgs | src/makepass/makepass.py:241-299 | the step-by-step checks and reassignments return exactly `Validate` |
| MakePass.AllowedIsKeep | src/makepass/makepass.py:318-321 | walking the candidates one at a time yields exactly `constrain_word_length` over their strings |
| MakePass.SampleUnfold | src/makepass/makepass.py:318-321 | the filtered stream is the next candidate, if in range, then the filtered rest |
| MakePass.SampleEnds | src/makepass/makepass.py:318-321 | once the slice is used up or the draws run dry, nothing more is found or counted |
| MakePass.FirstFromNone | src/makepass/makepass.py:323-326 | `next` finds nothing iff no remaining candidate is allowed |
| MakePass.FirstFromSome | src/makepass/makepass.py:323-324 | what `next` returns is the head of the allowed candidates; the stream it leaves holds the rest |
| MakePass.CountFromAllowed | src/makepass/makepass.py:104-112 | the count of the remaining stream is the number of its allowed candidates |
| MakePass.FirstAllowed | src/makepass/makepass.py:318-326 | the loop behind `next(passwords)` finds what `FirstFrom` specifies and returns where the stream stands |
| MakePass.CountAllowed | src/makepass/makepass.py:104-112 | `count_iterator`'s loop over the rest of the stream counts what `CountFrom` specifies |
| MakePass.Sample | src/makepass/makepass.py:317-338 | `next`, then `count_iterator + 1` and `estimate_entropy`, returns exactly `Select` |
| MakePass.Run | src/makepass/makepass.py:241-338 | main returns exactly `Expected`: validation, then selection with an estimate iff `entropy_estimate or verbose` |
| MakePass.AsWrittenMessageOmitsChar | src/makepass/makepass.py:296-299 | as written, the message is the same for every character and shows a literal `{char}` |
| MakePass.InvalidCharMessageNamesChar | src/makepass/makepass.py:296-299 | the corrected message names the character, so distinct characters give distinct messages |

## Left out

- Randomness: `secrets.choice` and `SystemRandom` (lines 8-13, 44-48) become the given `Draws`. No claim is made about uniformity.
- Finite draws: a supply that runs dry ends the sample early. It can then give "Couldn't generate password" where Python would keep drawing, or loop forever when the word set has fewer than `word_count` distinct words.
- Word-list loading, `base_word_set` (lines 22-31): reading the package file, UTF-8 decoding and `strip`. The caller passes the word list already truncated to `top_words`.
- The `autocommand` CLI and its help text (lines 210-240). The `count` flag only prints a length.
- `errfmt`, `textwrap`, the printing to stderr and the final print (lines 181-188, 340-394).
- Floating-point log2 values (lines 115-178): each term is modelled as the integer space or ratio it is log2 of. The brute-force warning (lines 301-307) compares floats and only prints; only its `log2(0)` error is modelled.
- Negative `word_count` or `sample_size`: these are `nat`. Python's `islice` raises `ValueError` for a negative count.
- Non-ASCII digits, which `\d` on line 294 also matches.
- `len(it)` in `count_iterator` (line 110): main always passes a generator, so only the counting loop is modelled.

## Findings

| source | as written | input that shows it | evidently intended | confidence | as-written member | corrected member |
|---|---|---|---|---|---|---|
| src/makepass/makepass.py:94 | `$` also matches just before a final newline, so `password_parts` accepts a string ending in "\n" and drops the newline | `"Apple!\n"` parses to (["Apple"], "", "!"), which assembles to `"Apple!"` | accept only strings that are exactly an assembly of parts (`\Z` or `re.fullmatch`) | medium, not executed | Parts.TrailingNewlineAccepted | Parts.PasswordPartsRoundTrip |
| src/makepass/makepass.py:296-299 | the message is returned without `.format(char=…)`, so it shows a literal `{char}` | `append_char` with `special_set = "a"` | the message names the offending character | high, not executed | MakePass.AsWrittenMessageOmitsChar | MakePass.InvalidCharMessageNamesChar |
| src/makepass/makepass.py:258-276 | the possible sizes count one character for `append_char` even when `special_set` is empty, although `base_passwords` then appends none (lines 83-84, 292) | `--append_char --special_set "" --no_append_numeral`, `word_count 1`, `min_word = max_word = 4`, `max_length 4`: "Impossible constraints: minumum possible size (5) greater than maximum allowed password length (4)", though "Word" fits | count the character only when one is appended | medium, not executed | MakePass.PossibleSizeAsWrittenOvercounts | MakePass.ImpossibleConstraintsJustified |
| src/makepass/makepass.py:263-284 | the maximum possible size counts one character for `append_char` even when `special_set` is empty, so impossible lengths pass the check | `--append_char --special_set ""`, `word_count 4`, `min_word 4`, `max_word 8`, `min_length 34`: the maximum possible size is 34, so the checks pass, though no candidate is longer than 33 and the run ends with "Couldn't generate password matching constraints" | count the character only when one is appended, and refuse with maximum possible size 33 | medium, not executed | MakePass.MaxPossibleSizeAsWrittenOvercounts | MakePass.ImpossibleConstraintsJustified |
