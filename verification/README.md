# langdetect-rs core in Dafny

A model of the core of `langdetect-rs`, a Rust port of the n-gram language
detector. Each Rust source file becomes one Dafny module. The modules are
built from immutable datatypes and pure functions, and their contracts and
lemmas state what the code promises.

- `Basics` (`basics.dfy`): `Option`, `Result`, and `IndexOf`, which stands for
  Rust's `position`.
- `Messages` (`messages.dfy`): the properties-file reader.
  - The line loop of `Messages::new` is a pure function from lines to a map.
  - `parse_unicode_escapes` keeps its lossy failure path.
  - `get_string` answers `!key!` for a missing key.
  - An escaper proves the decoder's round trip.
- `NGrams` (`ngram.rs`): the character window, with three parts.
  - `normalize` dispatches on the Unicode block.
  - The CJK class map: later classes overwrite earlier ones.
  - The `add_char`/`get` state machine, including the three-way
    `capitalword` rule, and the Vietnamese pair composer `normalize_vi`.
  - The character tables (the Latin-1 exclusions, the KANJI classes and the
    Vietnamese tables) are read from the messages map by key.
- `LangProfiles` (`lang_profile.rs`): a map from gram to count, plus
  `n_words`.
  - Modelled operations: `add`, `update`, and the two-pass `omit_less_freq`.
  - `omit_less_freq` is a method with loop invariants that visits the keys in
    any order.
  - Invariant: `n_words[k]` is the total count of the grams of `k + 1` chars.
    `add`, `update` and `omit_less_freq` all preserve it.
- `Languages` (`language.rs`): the result pair, ordered by probability only,
  with structural equality.
- `Detectors` (`detector.rs`): the detector pipeline.
  - Covered steps: `append`, `cleaning_text`, `extract_ngrams` (the buffer
    length is tested in UTF-8 bytes), the trial loop of `detect_block` with
    `update_lang_prob` and `normalize_prob` over reals, `sort_probability`
    (threshold filter and stable descending sort), memoised
    `get_probabilities`, and `detect`.
  - Randomness is a parameter: one normal draw per trial and one index draw
    per step.
- `DetectorFactories` (`detector_factory.rs`):
  - the table operations `clear`, `set_seed`, `create`, `override_profile`,
    `add_profile` and `delete_profile`;
  - the indexing part of `load_json_profile`, over already-decoded
    profiles;
  - the two shortcut queries, as compositions.

Three behaviours of the code that are easy to miss are modelled as written:

- `override_profile` creates a zero vector for every gram of the profile,
  not only for grams of one to three chars.
- It also keeps the length of any vector that already exists, rather than
  forcing `langsize`.
- `load_json_profile` takes the first three `n_words` values and pads
  missing ones with zeros. It does not demand exactly three.

## Model

| member | source | states |
|---|---|---|
| Basics.IndexOf | src/detector_factory.rs:136 | `None` exactly when the element is absent; otherwise the position of its first occurrence |
| Messages.TrimStart | src/utils/messages.rs:22 | removes exactly the leading whitespace: the result is a suffix, starts with a non-space, and every dropped char is whitespace |
| Messages.TrimEnd | src/utils/messages.rs:22 | removes exactly the trailing whitespace |
| Messages.DecodeHex | src/utils/messages.rs:49-50 | an escape decodes exactly when its hex parses as a 16-bit value that is not a surrogate; the char has that code |
| Messages.ParseUnicodeEscapes | src/utils/messages.rs:36-60 | decoding never lengthens the text |
| Messages.NoBackslashIsIdentity | src/utils/messages.rs:36-60 | text with no backslash is returned unchanged |
| Messages.LoneBackslashKept | src/utils/messages.rs:40-57 | a backslash not followed by `u` is kept and the next char is processed normally |
| Messages.EscapeDecoded | src/utils/messages.rs:40-53 | `\u` followed by four hex digits of a valid scalar becomes that single char |
| Messages.FailedEscapeDropsChars | src/utils/messages.rs:42-57 | after a failed escape only the backslash remains; the `u` and up to four consumed chars are dropped |
| Messages.UnescapeEscapeAll | src/utils/messages.rs:36-60 | round trip: decoding the `\uXXXX` escape of any text of Basic Multilingual Plane chars gives the text back |
| Messages.ParseLineMeaning | src/utils/messages.rs:22-28 | an entry comes from a trimmed, non-empty line that does not start with `#`; the line is split at its first `=` and the value is unescaped; a line with no `=` gives nothing |
| Messages.ParseLine | src/utils/messages.rs:22-28 | a line gives no entry exactly when, once trimmed, it is empty, starts with `#`, or has no `=` |
| Messages.ParseLines | src/utils/messages.rs:21-30 | every stored value is the value some line gives for its key |
| Messages.TableValue | src/utils/messages.rs:26-28 | a stored key and value come from one of the parsed entries |
| Messages.ParseLinesKeys | src/utils/messages.rs:21-30 | a key is in the map exactly when some line defines it |
| Messages.LastDefinitionWins | src/utils/messages.rs:26-28 | a key's value comes from its last defining line |
| Messages.GetString | src/utils/messages.rs:62-64 | the stored value, or `!key!` when the key is missing |
| Messages.GetStringFromLines | src/utils/messages.rs:21-64 | for lines read from a file: `!key!` when no line defines the key, otherwise the value of the last line that does |
| NGrams.CharTablesFrom | src/utils/ngram.rs:11-142 | the KANJI class strings are the messages looked up under their keys, in order |
| NGrams.VietTablesFrom | src/utils/ngram.rs:158-166 | the base chars, the mark chars and the five composed tables are the messages looked up under their seven keys |
| NGrams.CjkMap | src/utils/ngram.rs:143-151 | every mapped char is listed by some class and maps to that class's first char |
| NGrams.ClassMap | src/utils/ngram.rs:143-151 | one class maps each of its chars to its first char |
| NGrams.CjkMapDomain | src/utils/ngram.rs:143-151 | a char is in the CJK map exactly when some class lists it |
| NGrams.CjkMapLastClass | src/utils/ngram.rs:143-151 | a char maps to the first char of the last class that lists it |
| NGrams.Normalize | src/utils/ngram.rs:246-294 | the map on each block: Basic Latin non-letters become a space; the Romanian, Arabic and Vietnamese substitutions; the kana, Bopomofo and Hangul representatives; General Punctuation becomes a space; other blocks pass through |
| NGrams.NormalizeIdempotent | src/utils/ngram.rs:246-294 | normalising twice equals normalising once, outside the CJK block, when the tables map representatives to themselves |
| NGrams.NormalizeIdeograph | src/utils/ngram.rs:288-290 | an ideograph maps to the first char of the last class that lists it, or to itself when no class does |
| NGrams.ClassMatesNormalizeEqual | src/utils/ngram.rs:143-151 | two ideographs whose last listing class is the same normalise to the same char |
| NGrams.NewNGram | src/utils/ngram.rs:197-202 | the window starts as `" "` with the flag clear |
| NGrams.AddChar | src/utils/ngram.rs:204-225 | keeps the buffer at 1 to 3 chars, starting with the space sentinel while it holds fewer than 3; a boundary followed by a space resets to `(" ", false)`; a boundary followed by a letter starts `" " + c`; otherwise keeps the last three chars; the three-way `capitalword` rule |
| NGrams.CapitalwordMeansUpperLast | src/utils/ngram.rs:218-224 | a set flag implies the last buffered char is uppercase, and adding a char preserves this |
| NGrams.Get | src/utils/ngram.rs:227-244 | a gram exactly when the flag is clear, `n` is 1 to 3, at least `n` chars are buffered, and `n = 1` does not hit the sentinel; the gram is the last `n` chars |
| NGrams.States | src/detector.rs:165-167 | the window after each char of the text: one state per char, each obtained from the previous one by `add_char` |
| NGrams.NewNGramYieldsNothing | src/utils/ngram.rs:364-370 | the fresh window gives no gram of any size |
| NGrams.WordStart | src/utils/ngram.rs:207-216 | after a boundary a non-space char `c` gives `get(1) = c`, `get(2) = " " + c` and no trigram |
| NGrams.AsciiTrace | src/utils/ngram.rs:414-428 | the window after `A`, `1`, `B`: `" A"`, then `" A "`, then `" B"`, with the flag clear |
| NGrams.AsciiTraceGrams | src/utils/ngram.rs:414-428 | the grams `get` gives in those three states, as the test expects |
| NGrams.SeparatorInWord | src/utils/ngram.rs:213-224 | inside a short word, a Basic Latin non-letter appends the space sentinel and clears the flag |
| NGrams.LetterAfterBoundary | src/utils/ngram.rs:207-224 | an uppercase ASCII letter after a boundary starts `" " + c` and leaves the flag clear |
| NGrams.NormalizeVi | src/utils/ngram.rs:158-194 | the rewrite never lengthens the text |
| NGrams.ComposesPair | src/utils/ngram.rs:169-188 | base number `bi` followed by mark number `di` becomes entry `bi` of table `di` |
| NGrams.NoPairUnchanged | src/utils/ngram.rs:158-194 | text with no base directly followed by a mark is returned unchanged |
| LangProfiles.NewProfile | src/utils/lang_profile.rs:14-20 | an unnamed, consistent profile |
| LangProfiles.WithName | src/utils/lang_profile.rs:22-28 | a named profile with no grams, consistent |
| LangProfiles.Add | src/utils/lang_profile.rs:53-63 | no change when unnamed or the gram has 0 or more than 3 chars; otherwise exactly the gram's count and the matching `n_words` entry go up by one, and nothing else changes |
| LangProfiles.AddPreservesConsistent | src/utils/lang_profile.rs:53-63 | `add` keeps `n_words[k]` equal to the total count of the grams of `k + 1` chars |
| LangProfiles.AddExamples | src/utils/lang_profile.rs:133-163 | the outcomes the unit tests expect: counting twice, an unnamed profile ignoring the gram, and the empty and four-char grams being ignored |
| LangProfiles.AddGram | src/utils/lang_profile.rs:108-110 | adding an optional gram keeps the name, is a no-op for an unnamed profile, never lowers a count, and only creates keys of 1 to 3 chars |
| LangProfiles.Feed | src/utils/lang_profile.rs:105-113 | feeding the chars through the window keeps the name, is a no-op for an unnamed profile, never lowers a count, and only creates keys of 1 to 3 chars |
| LangProfiles.Update | src/utils/lang_profile.rs:100-103 | empty text changes nothing |
| LangProfiles.UpdatePreservesConsistent | src/utils/lang_profile.rs:100-114 | feeding normalised text through a fresh window keeps the `n_words` invariant |
| LangProfiles.UpdateUnnamedIsNoop | src/utils/lang_profile.rs:100-114 | updating an unnamed profile changes nothing |
| LangProfiles.Threshold | src/utils/lang_profile.rs:69 | the threshold is the larger of `MINIMUM_FREQ` and `n_words[0] / LESS_FREQ_RATIO`: at least both and equal to one of them |
| LangProfiles.Prune | src/utils/lang_profile.rs:73-84 | one removal pass: it keeps exactly the grams the rule keeps, recounts `n_words` from the survivors (never upward), and sums the single-letter survivors |
| LangProfiles.OmitLessFreq | src/utils/lang_profile.rs:65-98 | no change when unnamed; otherwise it keeps the invariant and only removes grams, without changing the count of any gram it keeps, and never raises `n_words`; every survivor is above the threshold; when single ASCII letters are a minority after the first pass, no survivor contains an ASCII letter |
| Languages.NewLanguage | src/language.rs:30-32 | stores both fields unchanged |
| Languages.PartialCmp | src/language.rs:44-48 | always defined; less, equal or greater exactly as the probabilities compare |
| Languages.CmpAntisymmetric | src/language.rs:44-48 | `a < b` exactly when `b > a`; equality of order is symmetric |
| Languages.LtTransitive | src/language.rs:44-48 | the order is transitive |
| Languages.OrderIgnoresLanguage | src/language.rs:44-48 | equal probabilities with different languages: unequal values, yet neither is less nor greater |
| Languages.EqualImpliesCmpEqual | src/language.rs:44-48 | equal values compare equal |
| Languages.CmpExample | src/language.rs:68-75 | the unit test's comparisons |
| Languages.Display | src/language.rs:35-42 | empty exactly when there is no language; otherwise the name, a colon and the formatted probability |
| Detectors.NewDetector | src/detector.rs:44-57 | the defaults: alpha 0.5, 7 trials, a 10000-char limit, empty text and no cached probabilities |
| Detectors.Collapse | src/detector.rs:66-72 | never lengthens; no double space; no leading space after a space; the non-space chars are kept in order; a single char is dropped exactly when it is a space following a space |
| Detectors.CollapseConcat | src/detector.rs:66-72 | collapsing `a + b` is collapsing `a`, then `b` starting from the last char of `a`: so the collapse keeps every char in order and drops only each space that follows a space |
| Detectors.CollapseCons | src/detector.rs:66-72 | the first char is kept unless it is a space after a space, and the rest is collapsed after it |
| Detectors.CollapseKeepsWordSpaces | src/detector.rs:66-72 | `"a b"` stays `"a b"`, `"a  b"` becomes `"a b"`, and `"  a"` becomes `"a"` |
| Detectors.CollapseTidy | src/detector.rs:66-72 | already tidy text passes unchanged |
| Detectors.CollapseIdempotent | src/detector.rs:66-72 | collapsing twice equals collapsing once |
| Detectors.TakeChars | src/detector.rs:67 | the first `n` chars, or all of them |
| Detectors.Append | src/detector.rs:59-73 | only the text changes; the old text is a prefix; at most `max_text_length` chars are added per call; the added part is tidy and has the non-space chars of the first `max_text_length` chars of the filtered, Vietnamese-normalised input; it is exactly the collapse of those chars starting after a space |
| Detectors.AppendKeepsTidy | src/detector.rs:59-73 | tidy text stays tidy across calls |
| Detectors.StripLatin | src/detector.rs:90-95 | removes exactly the chars in `'A'..='z'`, keeping all others; a single char is dropped exactly when it is in that range |
| Detectors.StripLatinConcat | src/detector.rs:90-95 | stripping distributes over concatenation: with the single-char case this makes it an order- and multiplicity-preserving filter |
| Detectors.StripLatinCons | src/detector.rs:90-95 | the first char is kept exactly when it is outside `'A'..='z'`, in front of the stripped rest |
| Detectors.StripLatinCounts | src/detector.rs:76-95 | after stripping there are no Latin chars, and the non-Latin count is unchanged |
| Detectors.CleaningText | src/detector.rs:75-98 | unchanged unless twice the Latin count is below the non-Latin count; then the result is the stripped text, which removes exactly the `'A'..='z'` chars and keeps the others in order |
| Detectors.CleaningIdempotent | src/detector.rs:75-98 | cleaning twice equals cleaning once |
| Detectors.Utf8Len | src/detector.rs:172 | the UTF-8 length lies between the char count and four times the char count |
| Detectors.Utf8LenAscii | src/detector.rs:172 | the byte length equals the char count exactly for ASCII text |
| Detectors.ExtractNgrams | src/detector.rs:162-182 | every gram has 1 to 3 chars, is not a lone space, and is a key of the table |
| Detectors.Emit | src/detector.rs:171-179 | the grams emitted from one buffer are all keys of the table |
| Detectors.Extract | src/detector.rs:165-181 | the grams emitted along the text are all keys of the table |
| Detectors.ExtractOverStates | src/detector.rs:165-181 | the extraction is the concatenation, state by state along the text, of nothing when `capitalword` is set and the buffer's emitted grams otherwise |
| Detectors.EmittedIsGets | src/detector.rs:167-179 | over window states with an ASCII buffer, the emitted grams are exactly the known grams `get(1)`, `get(2)` and `get(3)` give, state by state |
| Detectors.GramsOfStatesMember | src/detector.rs:165-181 | a gram is emitted exactly when some state's `get(n)`, for `n` from 1 to 3, gives it and it is a key of the table |
| Detectors.ExtractNgramsMeaning | src/detector.rs:162-182 | for text that normalises to ASCII: a gram is extracted exactly when, after some char, the window gives it through `get` (so nothing under a set `capitalword`) and it is a key of the table; the result is empty exactly when no such state and gram exist |
| Detectors.AsciiEmitMatchesGet | src/detector.rs:171-179 | on an ASCII buffer, one window state contributes exactly the known grams that `get(1)`, `get(2)` and `get(3)` give |
| Detectors.MultibyteRepeatsGram | src/detector.rs:172-177 | the byte test lets `" ж"` be emitted twice, while `get(3)` gives nothing |
| Detectors.UpdateLangProb | src/detector.rs:184-194 | an unknown word reports false and leaves the vector alone; a known word multiplies entry `i` by `alpha / 10000 + table[word][i]` |
| Detectors.UpdateKeepsLive | src/detector.rs:184-194 | positive probabilities stay positive for a positive alpha and a non-negative table |
| Detectors.NormalizeProb | src/detector.rs:196-206 | every entry is divided by the sum; the result sums to one; the returned value is the largest entry |
| Detectors.Iterate | src/detector.rs:136-146 | a trial stops at a step that is a multiple of 5 and at most 1000, so it makes at most 1001 updates; stopping early means some probability exceeds 0.99999; the result is a positive distribution |
| Detectors.InitProbability | src/detector.rs:154-160 | the prior when set, otherwise the uniform distribution |
| Detectors.TrialProb | src/detector.rs:132-146 | each trial ends with a positive distribution of the starting length |
| Detectors.Accumulate | src/detector.rs:147-149 | adding one trial's vector, divided by the trial count, keeps one entry per language |
| Detectors.Average | src/detector.rs:147-149 | adding all trials keeps one entry per language and keeps the entries non-negative |
| Detectors.AverageSum | src/detector.rs:147-149 | adding `k` trial distributions, each divided by `n`, raises the sum by `k/n` |
| Detectors.AverageOfTrials | src/detector.rs:125-149 | the averaged vector has one non-negative entry per language, summing to one |
| Detectors.DetectBlock | src/detector.rs:119-152 | the text is cleaned; `NoFeatures` exactly when no gram is extracted, leaving `langprob` unset; otherwise `langprob` has one non-negative entry per language, summing to one |
| Detectors.Candidates | src/detector.rs:209-211 | exactly the languages whose probability is above 0.1; a single entry is kept exactly when its probability is above 0.1 |
| Detectors.CandidatesCons | src/detector.rs:209-211 | the first language is kept exactly when its probability is above 0.1, in front of the filtered rest |
| Detectors.CandidatesConcat | src/detector.rs:209-211 | filtering zipped lists piece by piece gives the same list: the filter keeps list order and multiplicity |
| Detectors.InsertDescSorted | src/detector.rs:212 | inserting into a descending list keeps it descending |
| Detectors.InsertDescStable | src/detector.rs:212 | insertion puts the new element before the elements of equal probability already in the list |
| Detectors.SortDesc | src/detector.rs:212 | a descending permutation |
| Detectors.SortDescStable | src/detector.rs:212 | elements of equal probability keep their order |
| Detectors.SortProbability | src/detector.rs:208-214 | exactly the above-threshold languages, sorted descending, with ties in list order |
| Detectors.GetProbabilities | src/detector.rs:111-116 | runs the block only while nothing is cached; the ranking of the cached vector |
| Detectors.GetProbabilitiesMemo | src/detector.rs:111-116 | a second call returns the same ranking and state, whatever the draws |
| Detectors.Detect | src/detector.rs:101-108 | the first language of the ranking, `unknown` when the ranking is empty, and the same error as the ranking |
| DetectorFactories.NewFactory | src/detector_factory.rs:45-53 | empty table, empty list, no seed |
| DetectorFactories.Clear | src/detector_factory.rs:84-87 | empties the table and the list and keeps the seed |
| DetectorFactories.SetSeed | src/detector_factory.rs:89-91 | sets the seed and changes nothing else |
| DetectorFactories.Create | src/detector_factory.rs:97-107 | copies the table, list and seed; alpha is replaced only when given |
| DetectorFactories.Base | src/detector_factory.rs:112-115 | a gram's existing vector, or `langsize` zeros |
| DetectorFactories.Ratio | src/detector_factory.rs:118 | the probability is a non-negative count over word count |
| DetectorFactories.OverrideProfile | src/detector_factory.rs:109-125 | appends the name; the table gains exactly the profile's grams |
| DetectorFactories.OverrideVector | src/detector_factory.rs:112-122 | other grams keep their vectors; a profile gram's vector keeps its length and every entry but `index`; entry `index` becomes count over word count for grams of 1 to 3 chars; a new vector for a longer gram stays all zeros |
| DetectorFactories.AddProfile | src/detector_factory.rs:127-133 | a listed name is refused with `DuplicatedLanguage` and no change; otherwise the profile is stored |
| DetectorFactories.RemoveAt | src/detector_factory.rs:142 | the vector without one entry, the rest shifted down |
| DetectorFactories.DeleteProfile | src/detector_factory.rs:135-149 | an absent language gives `DuplicatedLanguage` and no change; otherwise its first position leaves the list and every vector longer than that position |
| DetectorFactories.DeleteUndoesOverride | src/detector_factory.rs:109-149 | deleting a just-stored language restores the list and removes exactly the entry it wrote |
| DetectorFactories.PadCounts | src/detector_factory.rs:163-169 | the first three word counts, padded with zeros |
| DetectorFactories.ToProfile | src/detector_factory.rs:160-170 | the profile gets the name, the grams and the padded counts |
| DetectorFactories.LoadFrom | src/detector_factory.rs:157-173 | keeps the seed; the list gains the names of the stored profiles in input order; the load succeeds exactly when every profile decodes with a fresh, distinct name; a failure stops at the first bad profile, with `NotEnoughProfiles` for a decode error and `DuplicatedLanguage` for a listed name, and keeps the profiles stored before it |
| DetectorFactories.StoppedShift | src/detector_factory.rs:157-173 | a failure reported from the next profile on is also the failure of the load from this one |
| DetectorFactories.LoadFromAdds | src/detector_factory.rs:157-172 | a decoded profile with a fresh name is stored at its own index, and the load continues from the next one |
| DetectorFactories.LoadFromStops | src/detector_factory.rs:157-172 | a profile that fails to decode or has a listed name stops the load and leaves the factory as it was at that point |
| DetectorFactories.StoredVector | src/detector_factory.rs:112-122 | a stored vector keeps its starting vector's length and every entry but `index`; entry `index` is count over word count for a scored gram |
| DetectorFactories.StoredNonNeg | src/detector_factory.rs:112-122 | a stored vector is non-negative when its starting vector is |
| DetectorFactories.OverrideWritesIndex | src/detector_factory.rs:117-119 | storing a profile writes count over word count at `index` for each of its scored grams |
| DetectorFactories.OverrideKeepsEntries | src/detector_factory.rs:112-122 | storing at `index` leaves every existing entry below `index` as it was |
| DetectorFactories.KeepsEntriesTrans | src/detector_factory.rs:157-172 | keeping the entries below `i` is transitive across steps |
| DetectorFactories.LoadKeepsEntries | src/detector_factory.rs:157-172 | loading from profile `i` never changes an entry below `i`: earlier profiles are not rolled back or overwritten |
| DetectorFactories.LoadKeepsEntriesStep | src/detector_factory.rs:157-172 | the same, for a step that stores profile `i` |
| DetectorFactories.LoadWritesFirst | src/detector_factory.rs:157-172 | after storing profile `i`, each of its scored grams holds its ratio at index `i` in the final table |
| DetectorFactories.LoadWritesOwnIndex | src/detector_factory.rs:157-172 | every stored profile `j` has each of its scored grams' ratios at index `j` in the final table, whether or not the load later fails |
| DetectorFactories.LoadJsonProfile | src/detector_factory.rs:151-175 | fewer than two inputs give `NotEnoughProfiles` and no change; on success the list is the old list followed by the names in input order |
| DetectorFactories.OverrideKeepsRectangular | src/detector_factory.rs:112-122 | storing at an index below `langsize` keeps every vector at `langsize` non-negative entries |
| DetectorFactories.LoadKeepsRectangular | src/detector_factory.rs:157-173 | loading keeps every vector at `langsize` non-negative entries |
| DetectorFactories.LoadedIsRunnable | src/detector_factory.rs:151-175 | a detector created after a successful load covers every gram for every language, so detection has its preconditions |
| DetectorFactories.FactoryDetect | src/detector_factory.rs:178-182 | the answer is `unknown` or a listed language |
| DetectorFactories.FactoryGetProbabilities | src/detector_factory.rs:185-189 | a descending ranking of listed languages above the threshold |

## Left out

- The URL and e-mail regexes of `append` (`src/detector.rs:61-64`). They are a parameter `prefilter: string -> string`.
- `unicode_block` and `char::is_uppercase`. They are parameters of the character tables; `src/utils/unicode_block.rs` is not part of this model. A char with no block gets `unwrap_or(0)` in the code, and the model assumes no block constant that `normalize` matches is 0, so such a char passes through `normalize` unchanged.
- Splitting the file into lines. `BufRead::lines` drops the terminators and `flatten` skips lines that fail to read, so the model takes the lines as its input.
- The contents of `messages.properties`, and the file opening and lazy singleton of `Messages`. The tables come from a messages map passed in.
- Randomness. The seeded `StdRng`, the normal draw per trial and the uniform index draw per step are the parameter `Draws`. The drawn index is reduced modulo the number of grams, and the seed is carried but never used.
- Floating point. Probabilities are reals, so there are no NaN, infinity or rounding claims.
- The panic of `partial_cmp(...).unwrap()` on NaN. It cannot arise over reals.
- The `{:.1}` formatting in `Display`. It is a parameter `oneDecimal`.
- JSON decoding with serde. Inputs arrive as `Decoded`, and a `Malformed` input fails with `NotEnoughProfiles`, as the code maps decode errors.
- `LangProfile::from_file`, `DetectorFactory::load_profile` and `default`. These are file and global-state plumbing.
- The builder setters and `get_lang_list`. They are trivial field accessors.
- The examples, the Python scripts, `src/lib.rs` and `src/utils/mod.rs`. They are demos, offline tooling and module declarations.
- Integer widths. Counts are unbounded naturals, so `usize` overflow of `n_words` and `freq` is not modelled.
- Detectors.Iterate: requires a positive alpha in every trial, a positive starting vector and a table covering every language. With these the probabilities stay positive, which real arithmetic needs; the code has no such guard.
- Detectors.TrialProb: `Runnable` additionally asks that a prior be no shorter than the language list, where the code would panic on indexing.
- Detectors.DetectBlock: the sum-to-one claim holds only when the starting vector has exactly one entry per language and there is at least one trial.
- DetectorFactories.OverrideProfile: `Overridable` excludes a zero word count for a scored gram's length, where the code divides by zero, and an `index` outside an existing vector, where the code panics. The code's `Ok(())` result is dropped, since it is always `Ok`.
- DetectorFactories.LoadFrom: `Divisible` and `Indexable` carry the same two exclusions to every decoded profile.
- LangProfiles.OmitLessFreq: requires the `n_words` invariant, without which the code's subtraction of counts could underflow and panic.
- LangProfiles.Update: its own contract covers only the empty text. The rest of its meaning is in `UpdatePreservesConsistent` and `UpdateUnnamedIsNoop`, and the body is the composition of `normalize_vi`, the window and `add`.
- DetectorFactories.AddProfile: requires a named profile. The code's `profile.name.clone().unwrap()` at `src/detector_factory.rs:128` panics on an unnamed one; every caller in the code passes a named profile. It also requires `Overridable` for a fresh name, with the two exclusions listed for `OverrideProfile`.
- Detectors.UpdateLangProb: requires every table vector to be at least as long as the probability vector, where the code's `prob[i] *= ...` indexing would panic.
- Detectors.ExtractNgramsMeaning: holds for text that normalises to ASCII. For multibyte text the byte-length test differs from `get`, as `MultibyteRepeatsGram` shows.
- Detectors.Accumulate: its own contract gives only the length; the sum it adds is in `AverageSum`.
- Detectors.Emit, Detectors.Extract: their own contracts give only table membership; the full meaning is in `ExtractOverStates`, `EmittedIsGets` and `ExtractNgramsMeaning`.
- Detectors.SortDesc: Rust's stable `sort_by` is modelled as a stable insertion sort. Any stable sort gives the same result, so only the result is claimed.
