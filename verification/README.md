# chardet detection engine, modelled in Dafny

This project models the core of chardet's character-encoding detector and
proves properties of it. It covers four pieces.

**The `UniversalDetector` orchestrator** (`universal_detector.dfy`,
`detector_properties.dfy`)
- It keeps the per-session latches: `done`, `result`, whether data was
  seen, the input state, the last byte and the window-byte flag.
- It checks for the UTF-8 byte-order mark on the first data.
- It feeds every chunk to the UTF-16/32 prober, the escape prober and the
  charset probers in order. The first prober that reports `FoundIt` wins.
- It classifies the input as pure ASCII, escaped ASCII or high-byte input.
  The classification only ever leaves pure ASCII.
- It feeds the escape prober or the charset probers, depending on that
  state. On the first high-byte chunk it installs the group probers if the
  filter installed none.
- `close` picks the first prober of largest confidence, applies the 0.2
  threshold and maps ISO-8859 names to Windows code pages.

The concrete probers are not part of the model.
- A prober is a value: its kind, and the chunks it has been fed.
- What it reports is a `ProberBehaviour`: four functions of kind and
  history, passed to the detector.
- `Session` is the detector's state as a value.
- `FeedSession`, `CloseSession` and `InitialSession` say what `feed`,
  `close` and `reset` do to a session.
- The `UniversalDetector` class updates its fields in place, and each of
  its methods is proved to follow these functions.
- The lemmas in `detector_properties.dfy` are stated on the functions.

**The character distribution analyser** (`char_distribution.dfy`)
- It has two counters, updated in place by `feed` and cleared by `reset`.
- `get_confidence` computes a guarded, clamped ratio over them.
- Each subclass is only a choice of frequency table: a lookup function, a
  table size and a typical ratio.

**The byte filters of `CharSetProber`** (`charset_prober.dfy`)
- `remove_xml_tags` and `filter_international_words` are loops that build
  a byte buffer step by step.
- Each is proved equal to a recursive specification function.
- Their properties are proved about those functions.
- The regular expression `[a-zA-Z]*[\x80-\xff]+[a-zA-Z]*[^a-zA-Z\x80-\xff]?`
  is modelled as three greedy runs and an optional marker. The model is
  proved to return the longest prefix in the pattern's language.

**The UTF-16/UTF-32 prober** (`utf1632_prober.dfy`)
- Its two validators: UTF-32 scalar values, following definition D76 of
  chapter 3 of the Unicode Standard, and UTF-16 surrogate classes,
  following section 2.2 of RFC 2781.
- The state its constructor sets up.

`common.dfy` holds the byte type, the byte classes and the shared
enumerations.

## Model

| member | source | states |
|---|---|---|
| CharSetProber.RemoveXmlTags | chardet/charsetprober.py:42-63 | the `for` loop with the `in_tag` flag returns exactly `XmlFiltered(buf, false)`, the byte-by-byte scan that starts outside a tag |
| CharSetProber.XmlFiltered | chardet/charsetprober.py:53-62 | the byte-by-byte scan with the `in_tag` flag; its properties are the lemmas below (subsequence, alphabet, tags dropped, idempotence) |
| CharSetProber.XmlFilteredIsSubsequence | chardet/charsetprober.py:53-62 | the output is a subsequence of the input: bytes kept in order, none invented |
| CharSetProber.XmlFilteredAlphabet | chardet/charsetprober.py:59-62 | every output byte is an ASCII letter or at least 0x80, so no `<` or `>` is ever output |
| CharSetProber.XmlFilteredAppend | chardet/charsetprober.py:53-62 | scanning `a + b` is scanning `a`, then `b` with the flag `a` left behind |
| CharSetProber.NothingInsideTag | chardet/charsetprober.py:54-58 | inside a tag, bytes up to the next `>` produce nothing and the flag stays set |
| CharSetProber.TagIsDropped | chardet/charsetprober.py:54-58 | a whole `<...>` is dropped: the output of `before <inner> after` is the output of `before` then of `after` |
| CharSetProber.UnterminatedTagDiscardsRest | chardet/charsetprober.py:54-58 | a `<` with no later `>` discards the rest of the buffer, without error |
| CharSetProber.KeptBytesPassThrough | chardet/charsetprober.py:59-62 | a buffer of letters and high bytes only is returned unchanged |
| CharSetProber.RemoveXmlTagsIdempotent | chardet/charsetprober.py:53-63 | stripping twice equals stripping once, and the output is no longer than the input |
| CharSetProber.RunFrom | chardet/charsetprober.py:4 | a greedy run of a byte class stays within the buffer and stops at a byte outside the class |
| CharSetProber.RunFromInClass | chardet/charsetprober.py:4 | every byte of a run is in the class |
| CharSetProber.RunCovers | chardet/charsetprober.py:4 | a run is at least as long as any stretch of its class that starts at the same place |
| CharSetProber.RunEndsAt | chardet/charsetprober.py:4 | a stretch of the class that ends at a byte outside the class is exactly the run |
| CharSetProber.WordMatchEnd | chardet/charsetprober.py:30-31 | a match, when there is one, is non-empty and ends inside the buffer |
| CharSetProber.SplitWithinMatch | chardet/charsetprober.py:4 | any prefix of the pattern's form at a position ends within the match found there, so a match exists |
| CharSetProber.MatchIsWord | chardet/charsetprober.py:4 | what the matcher returns is in the pattern's language |
| CharSetProber.WordMatchIsLongestMatch | chardet/charsetprober.py:30-33 | the match is the longest prefix in the pattern's language, and there is none exactly when no prefix is in the language |
| CharSetProber.FilteredFrom | chardet/charsetprober.py:29-39 | what the `while` loop outputs from a position on: a match copied verbatim, else one space and the markers after it skipped; its properties are the lemmas below |
| CharSetProber.FilterInternationalWords | chardet/charsetprober.py:15-40 | the `while` loop returns exactly `FilteredFrom(buf, 0)`: copied matches, and one space per unmatched position followed by skipped markers |
| CharSetProber.SkipMarkers | chardet/charsetprober.py:38-39 | the inner loop stops at the end of the run of marker bytes |
| CharSetProber.FilteredNoLonger | chardet/charsetprober.py:29-39 | the output is never longer than the input |
| CharSetProber.SkippedBytesAreNotHigh | chardet/charsetprober.py:34-39 | where no word matches, the byte and the markers skipped contain no high byte |
| CharSetProber.FilteredKeepsHighBytes | chardet/charsetprober.py:29-39 | the high bytes of the output are exactly those of the input, in order |
| CharSetProber.FilteredWithoutHighBytes | chardet/charsetprober.py:29-40 | without high bytes the output is spaces only, and it is empty exactly when the input is |
| CharSetProber.NoHighByteNoMatch | chardet/charsetprober.py:4 | no match starts where no high byte follows |
| CharSetProber.AllHighBytesUnchanged | chardet/charsetprober.py:29-40 | a buffer made only of high bytes is returned unchanged |
| CharSetProber.LettersBecomeOneSpaceEach | chardet/charsetprober.py:29-39 | a stretch of ASCII letters holds no word, so each letter becomes its own space: runs of letters are not collapsed into one space |
| CharSetProber.AsciiWordBecomesTwoSpaces | chardet/charsetprober.py:34-39 | the ASCII word "ab" comes out as two spaces |
| CharSetProber.TwoSpacesBecomeOne | chardet/charsetprober.py:34-39 | two spaces come out as one: the first is an unmatched byte, the second a marker skipped after it |
| CharSetProber.FilterIsNotIdempotent | chardet/charsetprober.py:29-39 | "ab" gives two spaces and two spaces give one, so filtering twice differs from filtering once |
| CharDistribution.Confidence | chardet/chardistribution.py:46-56 | SURE_NO below the data floor; SURE_YES when every counted character is frequent; otherwise the ratio freq/((total-freq)·ratio) when it is below SURE_YES, else SURE_YES; always in (0, 0.99] when `0 <= freq <= total` |
| CharDistribution.FrequentCharNeverLowersConfidence | chardet/chardistribution.py:46-56 | above the floor, one more frequent character never lowers the confidence |
| CharDistribution.RareCharNeverRaisesConfidence | chardet/chardistribution.py:46-56 | one more rare character never raises the confidence |
| CharDistribution.CountFeed | chardet/chardistribution.py:29-37 | nothing changes unless the character is two bytes long and known to the table; then the total grows by one, and the frequent count grows exactly when the rank is below the table size |
| CharDistribution.TallyCounts | chardet/chardistribution.py:23-37 | after a reset and a series of feeds, the counters are the number of counted characters and the number of frequent ones, so `0 <= freq <= total <= number fed` |
| CharDistribution.CharDistributionAnalysis.constructor | chardet/chardistribution.py:14-27 | installs the lookup, size and ratio, and starts with both counters at zero and `done` false |
| CharDistribution.CharDistributionAnalysis.Reset | chardet/chardistribution.py:23-27 | zeroes both counters and clears `done`; the table, size and ratio are constants |
| CharDistribution.CharDistributionAnalysis.Feed | chardet/chardistribution.py:29-37 | updates the counters as `CountFeed` says, keeps `0 <= freq <= total`, leaves `done` alone |
| CharDistribution.CharDistributionAnalysis.GetConfidence | chardet/chardistribution.py:46-56 | reads the counters only, is `Confidence` of them and lies in (0, 0.99] |
| CharDistribution.TableOf | chardet/chardistribution.py:58-112 | EUC-KR and JOHAB use the EUC-KR table, SJIS and EUC-JP the JIS table, and no other analyser does |
| CharDistribution.SharedTables | chardet/chardistribution.py:58-112 | two analysers share a table exactly when they are equal, JOHAB/EUC-KR, or SJIS/EUC-JP |
| CharDistribution.NewAnalyser | chardet/chardistribution.py:58-112 | a subclass constructor: a fresh analyser over its table's lookup, size and ratio, with zero counters |
| Utf1632.BigEndian32 | chardet/utf1632prober.py:39 | the shifted-and-or'ed value lies in [0, 2^32) |
| Utf1632.BigEndian32Bytes | chardet/utf1632prober.py:39 | each of the four bytes is recovered from the value by shift and mask |
| Utf1632.ValidateUtf32Characters | chardet/utf1632prober.py:30-40 | true exactly when the big-endian value is a Unicode scalar value (at most 0x10FFFF and not a surrogate) |
| Utf1632.NonzeroFirstByteRejected | chardet/utf1632prober.py:39-40 | any group whose first byte is non-zero is rejected |
| Utf1632.DecodeEncodeUtf32 | chardet/utf1632prober.py:39 | reading back the UTF-32BE bytes of a value gives the value |
| Utf1632.EncodeDecodeUtf32 | chardet/utf1632prober.py:39 | encoding the value read from four bytes gives back the bytes |
| Utf1632.ValidatorAcceptsExactlyScalarValues | chardet/utf1632prober.py:30-40 | the validator accepts the encoding of `v` exactly when `v` is a scalar value |
| Utf1632.BigEndian16 | chardet/utf1632prober.py:52 | the value lies in [0, 2^16), and both bytes are recovered from it |
| Utf1632.ValidateUtf16Characters | chardet/utf1632prober.py:42-65 | high surrogate exactly for 0xD800..0xDBFF, low surrogate exactly for 0xDC00..0xDFFF, true exactly for the other units; the `False` branch is unreachable |
| Utf1632.Utf16EncodingClassified | chardet/utf1632prober.py:52-62 | for each scalar value's UTF-16 encoding: a single unit is valid, a pair is high then low surrogate, and the pair decodes back to the value |
| Utf1632.SurrogatePairRoundTrip | chardet/utf1632prober.py:54-59 | each high-low surrogate pair is the encoding of the value it decodes to |
| Utf1632.UTF1632Prober.constructor | chardet/utf1632prober.py:15-27 | position 0; zero counters and quad of length 4; all six flags false; state Detecting |
| UniversalDetection.HasHighByte | chardet/universaldetector.py:38 | the search for a byte 0x80..0xFF; see `DetectorProperties.HighByteSearchSplits` |
| UniversalDetection.HasEscMarker | chardet/universaldetector.py:39 | the search for ESC or `~{`; see `DetectorProperties.EscMarkerSearchGrows` |
| UniversalDetection.HasWinByte | chardet/universaldetector.py:40 | the search for a byte 0x80..0x9F; see `DetectorProperties.WinByteIsHighByte` |
| UniversalDetection.IsoWinMap | chardet/universaldetector.py:41 | the eight ISO-8859 to Windows code page entries; every key is free of capitals, so a lowered name can reach it |
| UniversalDetection.Classify | chardet/universaldetector.py:121-125 | the state only leaves pure ASCII: to high-byte exactly when the chunk has a byte 0x80..0xFF; otherwise to escaped ASCII exactly when the last byte plus the chunk holds ESC or `~{` |
| UniversalDetection.InitialProbersFresh | chardet/universaldetector.py:73-82 | the installed probers have seen nothing, and there are none exactly when none of the four filter bits is set |
| UniversalDetection.InitialProbersMembers | chardet/universaldetector.py:73-82 | each filter bit brings in its own probers (GB2312; EUC-JP and SJIS; EUC-KR; Latin-1) and no other |
| UniversalDetection.FeedInOrder | chardet/universaldetector.py:113-119 | the loop returns one prober per input prober, and the winner is one of them |
| UniversalDetection.FeedInOrderIsFeedOutcome | chardet/universaldetector.py:113-119 | the probers up to the first `FoundIt` are fed in order and the later ones are not; with no `FoundIt` all are fed |
| UniversalDetection.FeedOutcomeUnique | chardet/universaldetector.py:113-119 | that description fixes the outcome: the loop's result is unique |
| UniversalDetection.FirstMaxIndex | chardet/universaldetector.py:173 | `max` with a key returns the first index of largest confidence |
| UniversalDetection.ConfidencesOf | chardet/universaldetector.py:172 | one confidence per prober, in order |
| UniversalDetection.LowerAscii | chardet/universaldetector.py:177 | `lower()` maps A-Z to a-z and keeps every other character |
| UniversalDetection.ReportedName | chardet/universaldetector.py:176-181 | without window bytes the name is kept; with them it is kept or becomes a Windows code page of the table. Which page, and when: `DetectorProperties.IsoNameIsRemapped` and `DetectorProperties.OtherNamesAreKept` |
| UniversalDetection.Arbitrate | chardet/universaldetector.py:170-187 | a verdict exactly when some prober's confidence is above 0.2, carrying the largest confidence of all; otherwise no result at all |
| UniversalDetection.InitialSession | chardet/universaldetector.py:57-84 | a fresh session: not done, no data, no encoding, pure ASCII, no window bytes, and no prober has been fed |
| UniversalDetection.FeedSession | chardet/universaldetector.py:86-151 | `feed` on a session: a finished session or an empty chunk is left unchanged, data is recorded as seen, and a verdict reached by `feed` names an encoding |
| UniversalDetection.CloseSession | chardet/universaldetector.py:153-193 | `close` on a session: changes only `result` and `done`, leaves a finished session alone, and ends the session exactly when it was done or not pure ASCII |
| UniversalDetection.BuildCharsetProbers | chardet/universaldetector.py:73-82 | the appends of `reset` build exactly `InitialProbers(filter)` |
| UniversalDetection.UniversalDetector.constructor | chardet/universaldetector.py:43-55 | stores the filter and the behaviour; the state is the fresh session |
| UniversalDetection.UniversalDetector.WithAllLanguages | chardet/universaldetector.py:43-55 | `__init__` with its default filter, every language family; the state is the fresh session for it |
| UniversalDetection.UniversalDetector.Reset | chardet/universaldetector.py:57-84 | the fields become `InitialSession(langFilter)` |
| UniversalDetection.UniversalDetector.FeedProbers | chardet/universaldetector.py:113-119 | the loop over a prober list returns exactly `FeedInOrder` of it |
| UniversalDetection.UniversalDetector.Feed | chardet/universaldetector.py:86-151 | the fields after `feed` are `FeedSession` of the fields before |
| UniversalDetection.UniversalDetector.FeedAllProbers | chardet/universaldetector.py:113-151 | the part of `feed` after the byte-order-mark check follows `FeedProbersStep` |
| UniversalDetection.UniversalDetector.ClassifyInput | chardet/universaldetector.py:121-151 | the classification, the last byte and the rest of `feed` follow `ClassifyAndDispatch` |
| UniversalDetection.UniversalDetector.FeedByInputState | chardet/universaldetector.py:129-151 | the state-dependent feeding and the window-byte check follow `AfterClassification` |
| UniversalDetection.UniversalDetector.FeedEscProber | chardet/universaldetector.py:129-136 | follows `EscStep`: the escape prober is fed, and its verdict is taken if it found the charset |
| UniversalDetection.UniversalDetector.FeedHighByteProbers | chardet/universaldetector.py:137-148 | follows `HighByteStep`, and reports whether a charset prober found the charset |
| UniversalDetection.UniversalDetector.Close | chardet/universaldetector.py:153-193 | the fields after `close` are `CloseSession` of the fields before, and the returned result is the stored one |
| DetectorProperties.BomShortCircuit | chardet/universaldetector.py:106-111 | the first data starting EF BB BF gives UTF-8-SIG with confidence 1.0 and sets `done`; no prober is fed and nothing else changes |
| DetectorProperties.FirstFoundItWins | chardet/universaldetector.py:113-119 | the first prober of the loop to report `FoundIt` supplies the result and sets `done`; the probers up to it are fed, later ones are not, and the classification is untouched |
| DetectorProperties.NoFoundItClassifies | chardet/universaldetector.py:113-127 | without a `FoundIt` in the loop the input is classified and the last byte of the chunk is kept |
| DetectorProperties.NoWinnerWhenNeverFinds | chardet/universaldetector.py:113-119 | with probers that never find, the loop feeds all of them and has no winner |
| DetectorProperties.FeedWithoutVerdict | chardet/universaldetector.py:121-151 | with probers that never find, `feed` leaves the result alone, classifies, keeps the last byte and sets the window-byte flag exactly on a byte 0x80..0x9F |
| DetectorProperties.FeedOnlyLeavesPureAscii | chardet/universaldetector.py:121-125 | a `feed` changes the input state only from pure ASCII: to high-byte only on a high byte, to escaped ASCII only on an escape marker without a high byte |
| DetectorProperties.InputStateIsFinal | chardet/universaldetector.py:121-125 | once out of pure ASCII, no sequence of `feed`s changes the input state |
| DetectorProperties.WinBytesFlag | chardet/universaldetector.py:150-151 | the flag is set only by a chunk holding a byte 0x80..0x9F; when `feed` reaches line 150 (no winner in the first loop, none in the high-byte loop) it becomes exactly "was set or the chunk has such a byte"; on every earlier return it is unchanged |
| DetectorProperties.FeedReachesTail | chardet/universaldetector.py:113-129 | with no winner in the first loop, `feed` is the state-dependent tail applied to the classified session |
| DetectorProperties.EscVerdictStillChecksWinBytes | chardet/universaldetector.py:129-151 | in escaped ASCII, a `FoundIt` of the escape prober sets the result and `done`, and the window-byte flag is still updated |
| DetectorProperties.WinBytesNeverRevert | chardet/universaldetector.py:150-151 | over any sequence of `feed`s the flag stays set |
| DetectorProperties.DoneIsFinal | chardet/universaldetector.py:100-101 | a finished session ignores every further chunk |
| DetectorProperties.InitialSessionSatisfiesInvariant | chardet/universaldetector.py:57-84 | a fresh session has no result, is not done and satisfies the feed invariant |
| DetectorProperties.FeedPreservesInvariant | chardet/universaldetector.py:86-151 | `feed` keeps the invariant: `done` comes with a named encoding, and before any data nothing is classified |
| DetectorProperties.FeedAllPreservesInvariant | chardet/universaldetector.py:86-151 | any sequence of `feed`s keeps it |
| DetectorProperties.AsciiStreamStaysUndecided | chardet/universaldetector.py:121-151 | ASCII chunks with probers that never find leave the session undecided, out of high-byte, with the result untouched |
| DetectorProperties.AsciiDocumentClosesAsAscii | chardet/universaldetector.py:166-168 | such a document closes as "ascii" with confidence 1.0 |
| DetectorProperties.CloseWithoutHighBytes | chardet/universaldetector.py:166-193 | outside high-byte, `close` reports "ascii"; it sets `done` in escaped ASCII but not in pure ASCII |
| DetectorProperties.FirstMaxUnique | chardet/universaldetector.py:173 | only one index is the first of the largest |
| DetectorProperties.CloseInHighByte | chardet/universaldetector.py:170-193 | the first prober of largest confidence among the charset probers and the UTF-16/32 prober is reported above 0.2 (name remapped, same confidence, its language), otherwise no encoding; `done` is set |
| DetectorProperties.CloseResultWellFormed | chardet/universaldetector.py:161-193 | a result without an encoding has confidence 0.0 and no language; `close` leaves the session done unless it is pure ASCII |
| DetectorProperties.Iso885913WithWinBytesIsWindows1257 | chardet/universaldetector.py:176-181 | any spelling of ISO-8859-13 is reported as Windows-1257 once window bytes were seen, and unchanged otherwise |
| DetectorProperties.IsoNameIsRemapped | chardet/universaldetector.py:176-181 | with window bytes, a name whose lower case is a key of the table is reported as exactly that key's entry; without them it is kept |
| DetectorProperties.OtherNamesAreKept | chardet/universaldetector.py:176-181 | a name whose lower case is not a key is always reported unchanged |
| DetectorProperties.LowerIso88591 | chardet/universaldetector.py:177 | "ISO-8859-1" lowers to the key "iso-8859-1" |
| DetectorProperties.Iso88591WithWinBytesIsWindows1252 | chardet/universaldetector.py:176-181 | "ISO-8859-1" with window bytes is reported as "Windows-1252" |
| DetectorProperties.EveryIsoNameIsRemapped | chardet/universaldetector.py:176-181 | each name of the table is reported as its Windows code page once window bytes were seen, and unchanged otherwise |
| DetectorProperties.LowerAsciiKeepsLowerCase | chardet/universaldetector.py:177 | a name without capitals is its own lower case |
| DetectorProperties.LowerAsciiIdempotent | chardet/universaldetector.py:177 | lowering twice is lowering once |
| DetectorProperties.SplitBomNotRecognised | chardet/universaldetector.py:106-111 | EF BB BF in one chunk is UTF-8-SIG, but split as EF / BB BF it is not recognised and the session ends undecided in high-byte |
| DetectorProperties.ClassificationDependsOnChunking | chardet/universaldetector.py:121-125 | ESC and 0x80 in one chunk give high-byte; ESC then 0x80 in two chunks give escaped ASCII |
| DetectorProperties.EscMarkerAcrossChunks | chardet/universaldetector.py:121-127 | `~` ending one chunk and `{` starting the next are found as the HZ shift, though neither chunk alone holds a marker |
| DetectorProperties.HighByteInstallsGroupProbers | chardet/universaldetector.py:138-141 | with no charset probers, the first high-byte chunk installs and feeds the multi-byte group (for the filter), the single-byte group and Latin-1 |
| DetectorProperties.WinByteIsHighByte | chardet/universaldetector.py:38-40 | a chunk with a byte 0x80..0x9F also has a byte 0x80..0xFF |
| DetectorProperties.HighByteSearchSplits | chardet/universaldetector.py:38 | the high-byte search over two pieces finds a byte exactly when it finds one in either piece |
| DetectorProperties.EscMarkerSearchGrows | chardet/universaldetector.py:39 | an escape marker found in either piece is found in the two pieces together |
| DetectorProperties.EscProberFedTwice | chardet/universaldetector.py:113-136 | in escaped ASCII, with no verdict, the escape prober is fed the chunk twice: in the first loop and again in the escape branch |

## Behaviour of the code worth knowing

The model follows the code as written, including these points:

- The byte-order mark is looked for only in the first non-empty chunk. A
  mark split across chunks is not recognised (`SplitBomNotRecognised`).
- The classification depends on how the input is chunked. Once a chunk has
  switched the session to escaped ASCII, a later high byte does not move it
  to high-byte (`ClassificationDependsOnChunking`).
- The group probers are installed on a high-byte chunk only when the
  charset prober list is empty. That happens only for a filter with none of
  the simplified-Chinese, Japanese, Korean and non-CJK bits.
- In the high-byte state the charset probers are fed each chunk twice: in
  the first loop (line 113) and again in the second (line 142).
- Likewise, in the escaped-ASCII state the escape prober is fed each chunk
  twice: in the first loop (line 113) and again at line 132
  (`EscProberFedTwice`).
- A `FoundIt` from the escape prober in the escaped-ASCII state sets the
  result but does not return. The window-byte check still runs.
- In pure ASCII, `close` reports "ascii" without setting `done`.
- `filter_international_words` writes one space for each position where no
  word starts, then skips the markers that follow. An ASCII-only word is no
  word, so each of its letters becomes a space: "ab" comes out as two spaces
  (`AsciiWordBecomesTwoSpaces`). Only the markers after such a position are
  collapsed, not whole runs of non-words.
- For the same reason `filter_international_words`, unlike
  `remove_xml_tags`, is not idempotent: "ab" gives two spaces, and two
  spaces give one (`FilterIsNotIdempotent`).

## Left out

- Logging (chardet/universaldetector.py:53, 163-164; chardet/charsetprober.py:12): it produces no state.
- The concrete probers are replaced by `ProberBehaviour`:
  - the escape, group, Latin-1, GB2312, EUC-JP, SJIS and EUC-KR probers;
  - the prober `feed` loop of `UTF1632Prober`.
  A prober's verdicts are arbitrary functions of its kind and feeding history.
- GB2312Prober, EUCJPProber, SJISProber and EUCKRProber are used by `reset` but never imported in chardet/universaldetector.py. The model treats them as available.
- `UTF1632Prober.feed`, `get_confidence` and `reset` are not part of this model. The constructor therefore stops before the `self.reset()` call at chardet/utf1632prober.py:28.
- MIN_CHARS_FOR_DETECTION and EXPECTED_RATIO (chardet/utf1632prober.py:12-13) are left out, because only `feed` and `get_confidence` would use them.
- SHORTCUT_THRESHOLD and ENOUGH_DATA_THRESHOLD are never used.
- The regular expressions are modelled by hand: the byte predicates `HasHighByte`, `HasEscMarker`, `HasWinByte` and the matcher `WordMatchEnd`. The regex engine itself is not modelled.
- `get_order` returns a random number in the code. Randomness has no specifiable behaviour, so it is replaced by a lookup function given to the constructor.
- The frequency tables are parameters:
  - a lookup, a size and a ratio per table;
  - their contents (chardet/chardistribution.py:1-6) are not part of this model.
- Confidences and thresholds are `real`, not IEEE floating point.
- CharDistribution.Confidence: requires a positive typical ratio. The base class leaves the ratio unset and every subclass installs its table's ratio, so a zero or missing ratio is not modelled.
- UniversalDetection.LowerAscii: lowers A-Z only. Python's `str.lower` also lowers non-ASCII letters, which no name in the remap table contains.
- Charset names are strings. A prober reporting no name (`None`) is not modelled.
- Lines 130-131 of chardet/universaldetector.py create the escape prober lazily. `reset` always installs one, so these lines are dead and the prober is a plain field.
- The language filter is modelled as the set of its bits, not as an integer bit mask. The default argument of `__init__` is the separate constructor `WithAllLanguages`.
- The placeholder values `UniversalDetector.__init__` assigns before it calls `reset` (chardet/universaldetector.py:44-51 and 54) are all replaced by `reset`, so they are not modelled. `lang_filter` (line 52) is kept as the constant `langFilter`.
- The placeholder values of `CharDistributionAnalysis.__init__` (chardet/chardistribution.py:15-17) are replaced by each subclass constructor, which `NewAnalyser` models. The counters it sets are reset at once by its `reset` call.
