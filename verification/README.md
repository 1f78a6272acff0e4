# Verified models of a browser engine

The repository is a browser engine written from scratch in C. This project
models seven self-contained pieces of it in Dafny and proves what they are for.
`dafny verify dfyconfig.toml` checks everything.

- **Text codecs** (`src/encoding.c`): the streaming decoders and encoders of the
  WHATWG Encoding Standard. Each decoder is a state machine driven by bytes, with
  an eight-byte queue for bytes that are pushed back and a fast path for UTF-8.
  `DecoderSpec` gives the handlers as a transition function, `Decoder` the same as
  a class whose fields change on every byte. Proved: the decode loop terminates
  and drops nothing, decoding does not depend on how the input is cut, the fast
  path is invisible, the UTF decoders accept exactly well-formed text, every
  decoder writes text only, and for all encodings decoding undoes encoding
  except for the listed folded code points. `Reading` says what any bytes mean,
  malformed ones included, by looking at them once (a character of UTF-8 is what
  some scalar value encodes to, a pair of a two-byte encoding is numbered by its
  place among all pairs), and `ReadingLaws.DecodeReads` shows that the state
  machines do exactly that. `QueryText` and `EncodedText` do the same for what
  percent-encoding writes. The index tables are arbitrary data;
  `RoundTrip.TablesFit`, `RoundTrip.RangesFit` and
  `UnicodeDecoding.TablesAreScalar` name what is asked of them.
- **Dates of form controls** (`src/datetime.c`, `src/dom.c`): day numbers, ISO
  weeks, and the strings of date, month, week, time and local date-time controls;
  `FormGrammar` has the grammar of these strings, which the readers are shown to
  accept exactly.
- **CSS component values** (`src/css_syntax.c`): the recursive parser loses no
  text, its verdict is that of a flat bracket check, every component is the token
  the text calls for and the longest there (`CssTokens`), and self-contained text
  is a sequence of whole statements (`CssSheets`).
- **The DOM tree and its indexes** (`src/dom.c`): a pointer tree relinked in
  place, an id index with packed counts that is repaired lazily, and class and
  tag buckets that are sorted only when it is worth it. Proved: after any sequence
  of operations a lookup by id returns exactly what a walk of the tree would, and
  so does a lookup by class or tag as long as no detached element is written to
  (`DomBuckets.TokenIndex.WriteClass` has the exact condition). `Forest` has the
  trees as values; `DomTree.Linked` says that the pointers of the nodes spell one.
- **calc()** (`src/css_calc.c`): parse, simplify, sort and print. Proved: the parser
  reads exactly the texts of a concrete grammar, as the trees of that grammar
  (`CalcGrammar`), equal amounts in different units read the same, simplification preserves meaning and reaches a normal form, the printed
  canonical text reads back with the meaning of the original, and exactly which
  canonical texts are their own canonical text.
- **The bytecode cache** (`src/bytecode_cache.c`): the memory store as a class, and
  its locked sections interleaved in any order with disk accesses and background
  jobs as a transition relation (`CacheRuns.Step`).
- **The animation engine** (`src/anim.c`): transitions and animations, their
  counter, the derived active set and the event log. `AnimEngine.Engine.Valid` is
  kept by every call of the API; `AnimDiscipline` reads the guarantees about events
  off it, `AnimClock` those about time, `AnimTold` what listeners hear as a function
  of a stopwatch, and `AnimObserved` how styles and scripts get along.

The classes (`StreamDecoder`, `ReverseMaps`, `TextEncoder`, `Parser`, `Node`,
`IdIndex`, `Document`, `Bucket`, `TokenIndex`, `Cursor`, `Cache`, `Engine`) update their fields as
the source does, and each method is proved against a function whose own
properties are then proved as lemmas.

Where the code does something other than one might read into its documentation,
the model follows the code:

- A transition is in its active phase only while it is active; an animation need
  not be. One that repeats for ever and takes no time is retired at once but stays
  in its active phase with its start event open, and so does an endless one that
  had ended before it was made endless and is then finished
  (`AnimStranded.StrandedByStyle`, `AnimStranded.StrandedByFinish`).
  `AnimStranded.PhaseFollowsActivity` says exactly when, and its neighbours which
  calls bring it about.
- A script that writes the class of a detached element has it entered in the class
  index of the document (`src/js.c`, lines 25114 to 25134). A lookup then finds it,
  and, because nodes of different trees compare as equal, an element of the
  document that is given the class next may be left out
  (`DomBuckets.WriteOnDetached`). The comparison of addresses in
  `ns_node_document_order_cmp` is never reached within the depth limit
  (`DomOrder.DocumentOrderCmp`).
- The minimum or maximum of percentages is not folded; with a negative percentage
  basis folding would be wrong (`CalcMeaning.PercentMustNotFold`).
- The canonical text of a value need not be a value: a `min()` of one call of
  another function becomes that call alone (`CalcIdempotent.SineAlone`);
  `CalcIdempotent.CanonicalStands` says when it is, and is its own canonical text.
- Encoders fold a few code points onto others, for instance the yen sign onto the
  backslash in Shift_JIS; `RoundTrip.RoundTripsExactly` shows that the text comes
  back if and only if it contains none of them.
- The guards "if the count is positive" of the animation engine never matter: every
  law of `AnimSteps` and `AnimRuns` takes the count down by exactly one.

## Model
| member | source | states |
|---|---|---|
| DecoderSpec.StepAccounts | src/encoding.c:536-984 | every decoder step keeps a legal state; a byte read is answered for, held or pushed back; held plus pushed-back bytes never exceed three, a step that pushes back answers for at least one byte, and at end of stream a step finishes or answers for a held byte |
| DecodeRun.TakeTurn | src/encoding.c:1027-1062 | one turn of the decode loop keeps held plus queued bytes at most three and lowers the pair (held + queued + unread, queued + unread) lexicographically unless it finishes; at the end of the input nothing is left unread |
| DecodeRun.ChunkIndependent | src/encoding.c:1027-1062 | for every encoding, state, mode and cut of the input, decoding the pieces gives the same text, the same final decoder and the same verdict as decoding the whole |
| DecodeRun.PiecesIndependent | src/encoding.c:1027-1062 | the same for any number of pieces, only the last one flushed, a fatal error ending the run |
| DecodeRun.ReplacementIsDone | src/encoding.c:960-984 | a replacement decoder that has reported its error ignores everything after it |
| Feed.EatenIsDecoded | src/encoding.c:1027-1062 | bytes that cause neither error nor push-back are decoded to exactly the code points they emit, whatever follows |
| FastPath.EncodeIsWellFormed | src/encoding.c:1018-1024 | every scalar value but NUL is encoded as a character the fast path accepts, and reads back |
| FastPath.EncodeOfValue | src/encoding.c:1018-1024 | every character the fast path accepts is the encoding of exactly one scalar value |
| FastPath.FastPathIsStepping | src/encoding.c:1027-1062 | copying the longest well-formed run gives the same text, decoder and verdict as stepping over it byte by byte, for any flush and mode |
| Utf8.ValidRun | src/encoding.c:1018-1024 | finds the length of the longest well-formed run without NUL |
| Utf8.EncodePrefixFree | src/encoding.c:1050-1052 | no encoding of a code point is a prefix of another followed by anything else: the first code point of a text and what follows are determined by its bytes |
| Utf8.EncodeAllInjective | src/encoding.c:1050-1052 | the text written determines the code points emitted |
| UnicodeDecoding.OutputIsText | src/encoding.c:1027-1062 | in every encoding and mode, whatever the bytes, the output is the UTF-8 form of scalar values |
| UnicodeDecoding.Utf8AcceptsText | src/encoding.c:536-583 | a fatal UTF-8 decode succeeds if and only if the input is the encoding of some scalar values, and then copies it |
| UnicodeDecoding.Utf16AcceptsText | src/encoding.c:586-621 | a fatal UTF-16 decode succeeds if and only if the input is the UTF-16 form of some scalar values, in either byte order, and then writes exactly those |
| Utf8Reading.QueuedIsUnread | src/encoding.c:1027-1062 | bytes pushed back are read again exactly as if they had not been read yet, in every encoding and mode |
| Utf8Reading.Utf8TokenIsRead | src/encoding.c:536-583 | at the front of any bytes stands a character, the longest proper beginning of one, or a byte that begins none; the decoder copies the first, writes U+FFFD or fails at the others, and goes on behind exactly those bytes |
| LegacyReading.Utf16TokenIsRead | src/encoding.c:586-621 | a unit, a surrogate pair, or a malformed one: how many bytes it takes and what it stands for, in both byte orders, read off the bytes in one look |
| LegacyReading.Gb18030TokenIsRead | src/encoding.c:639-704 | the same for gb18030: two-byte forms numbered in order, four-byte forms, and for each malformed or cut form exactly how many bytes are given up |
| LegacyReading.PlainTokenIsRead | src/encoding.c:707-957 | the same for Big5, its four pairs of code points included, and EUC-KR |
| LegacyReading.EucJpTokenIsRead | src/encoding.c:753-797 | the same for EUC-JP, half-width katakana and the three-byte forms included |
| LegacyReading.ShiftJisTokenIsRead | src/encoding.c:882-923 | the same for Shift_JIS, half-width katakana and the private rows included |
| LegacyReading.IsoTokenIsRead | src/encoding.c:800-879 | the same for ISO-2022-JP in each of its charsets: escape sequences, one right behind another, broken ones, and pairs cut by an escape |
| ReadingLaws.DecodeReads | src/encoding.c:536-984 | for every encoding and every input the output is that of the tokens one after the other, U+FFFD for each malformed one; a fatal decode writes the text before the first malformed token and fails if and only if there is one |
| ReadingLaws.PiecesRead | src/encoding.c:1027-1062 | the same in however many pieces the bytes come |
| ReadingLaws.AsciiIsKept | src/encoding.c:536-583 | for every input, the bytes below 0x80 in what a UTF-8 decoder writes are those of the input, in order |
| ReadingLaws.AsciiAfterBadLead | src/encoding.c:639-957 | in Big5, EUC-KR, EUC-JP, Shift_JIS and gb18030 an ASCII byte that does not fit the byte before it is read on its own behind a U+FFFD, except a digit where the rest of a four-byte form stands or the input ends |
| Decoder.StreamDecoder.constructor | src/encoding.c:986-1009 | a new decoder is in the initial state with an empty queue |
| Decoder.StreamDecoder.Reset | src/encoding.c:997-1009 | resetting restores the initial state and empties the queue |
| Decoder.StreamDecoder.Prepend | src/encoding.c:518-525 | bytes go in front of the eight-byte queue in order, or nothing changes when they do not fit |
| Decoder.StreamDecoder.PrependByte | src/encoding.c:527-533 | one byte goes in front of the queue; end of stream does not |
| Decoder.StreamDecoder.PopPending | src/encoding.c:1039-1042 | the first queued byte is taken and the others move up |
| Decoder.StreamDecoder.Utf8Handler | src/encoding.c:536-583 | updating the fields in place gives the verdict, the new state and the new queue of the step function, for every state, byte and end of stream |
| Decoder.StreamDecoder.Utf16Handler | src/encoding.c:586-621 | updating the fields in place gives the verdict, the new state and the new queue of the step function, for every state, byte and end of stream |
| Decoder.StreamDecoder.SingleByteHandler | src/encoding.c:624-636 | updating the fields in place gives the verdict, the new state and the new queue of the step function, for every state, byte and end of stream |
| Decoder.StreamDecoder.Gb18030RangesCodePoint | src/encoding.c:430-443 | the binary search finds the code point of a pointer, 0 where the pointer is in no block |
| Decoder.StreamDecoder.Gb18030Handler | src/encoding.c:639-704 | updating the fields in place gives the verdict, the new state and the new queue of the step function, for every state, byte and end of stream |
| Decoder.StreamDecoder.Big5Handler | src/encoding.c:707-750 | updating the fields in place gives the verdict, the new state and the new queue of the step function, for every state, byte and end of stream |
| Decoder.StreamDecoder.EucJpHandler | src/encoding.c:753-797 | updating the fields in place gives the verdict, the new state and the new queue of the step function, for every state, byte and end of stream |
| Decoder.StreamDecoder.Iso2022JpEscapeHandler | src/encoding.c:800-821 | updating the fields in place gives the verdict, the new state and the new queue of the step function, for every state, byte and end of stream |
| Decoder.StreamDecoder.Iso2022JpHandler | src/encoding.c:824-879 | updating the fields in place gives the verdict, the new state and the new queue of the step function, for every state, byte and end of stream |
| Decoder.StreamDecoder.ShiftJisHandler | src/encoding.c:882-923 | updating the fields in place gives the verdict, the new state and the new queue of the step function, for every state, byte and end of stream |
| Decoder.StreamDecoder.EucKrHandler | src/encoding.c:926-957 | updating the fields in place gives the verdict, the new state and the new queue of the step function, for every state, byte and end of stream |
| Decoder.StreamDecoder.Handle | src/encoding.c:960-984 | updating the fields in place gives the verdict, the new state and the new queue of the step function, for every state, byte and end of stream |
| Decoder.StreamDecoder.Fetch | src/encoding.c:1038-1048 | the next symbol comes from the queue, then from the data, then is end of stream |
| Decoder.StreamDecoder.CopyRun | src/encoding.c:1032-1037 | the fast path leaves what remains to be decoded unchanged |
| Decoder.StreamDecoder.DecodeChunk | src/encoding.c:1027-1062 | the loop terminates, never drops a byte, and leaves exactly the text, verdict and decoder of stepping over every byte |
| ReverseIndex.IndexPointer | src/encoding.c:1225-1242 | the smallest eligible pointer of a code point, the largest for the six special Big5 ones; none exactly when there is none |
| ReverseIndex.ChosenIsUnique | src/encoding.c:1225-1242 | that pointer is unique |
| ReverseIndex.CollectsCandidates | src/encoding.c:1190-1222 | collecting keeps exactly the mapped, non-excluded entries of the index |
| ReverseIndex.QSort | src/encoding.c:1163-1170 | sorting in place orders the entries by code point, then pointer |
| ReverseIndex.DedupeIncreases | src/encoding.c:1190-1222 | after compaction every code point occurs once, in increasing order |
| ReverseIndex.DedupeChooses | src/encoding.c:1190-1222 | the entry kept is the first of its code point, or the last for the special ones |
| ReverseIndex.Compact | src/encoding.c:1190-1222 | compaction in place over the same array writes exactly the de-duplicated entries |
| ReverseIndex.DedupedIsMap | src/encoding.c:1190-1222 | sorted and compacted, the entries list exactly the chosen pointers |
| ReverseIndex.RevMapBuild | src/encoding.c:1190-1222 | building the map yields exactly the chosen pointer of every code point |
| ReverseIndex.Search | src/encoding.c:1225-1242 | binary search finds the chosen pointer, and fails exactly when the code point has none |
| ReverseIndex.ReverseMaps.RevPointer | src/encoding.c:1225-1242 | the same through the maps built on first use |
| EncoderSpec.SingleByteIndex | src/encoding.c:1270-1277 | the first byte mapped to the code point, or none exactly when none is |
| EncoderSpec.RetriesOnce | src/encoding.c:1493-1524 | a step that asks to be tried again has changed the charset, and the second try never asks again |
| Encoder.TextEncoder.SingleByte | src/encoding.c:1270-1277 | writes the bytes of the encoder function, sets the charset state as it says, and fails exactly where it does |
| Encoder.TextEncoder.Gb18030RangesPointer | src/encoding.c:1280-1292 | the binary search finds the pointer of the range that holds the code point |
| Encoder.TextEncoder.Gb18030 | src/encoding.c:1295-1327 | writes the bytes of the encoder function, sets the charset state as it says, and fails exactly where it does |
| Encoder.TextEncoder.Big5 | src/encoding.c:1330-1338 | writes the bytes of the encoder function, sets the charset state as it says, and fails exactly where it does |
| Encoder.TextEncoder.EucJp | src/encoding.c:1341-1352 | writes the bytes of the encoder function, sets the charset state as it says, and fails exactly where it does |
| Encoder.TextEncoder.IsoSwitchTo | src/encoding.c:1355-1364 | writes the bytes of the encoder function, sets the charset state as it says, and fails exactly where it does |
| Encoder.TextEncoder.Iso2022Jp | src/encoding.c:1367-1394 | writes the bytes of the encoder function, sets the charset state as it says, and fails exactly where it does |
| Encoder.TextEncoder.ShiftJis | src/encoding.c:1397-1410 | writes the bytes of the encoder function, sets the charset state as it says, and fails exactly where it does |
| Encoder.TextEncoder.EucKr | src/encoding.c:1413-1419 | writes the bytes of the encoder function, sets the charset state as it says, and fails exactly where it does |
| Encoder.TextEncoder.Step | src/encoding.c:1422-1443 | writes the bytes of the encoder function, sets the charset state as it says, and fails exactly where it does |
| Encoder.TextEncoder.End | src/encoding.c:1446-1453 | writes the escape back to ASCII if one is due and leaves the encoder in ASCII |
| Encoder.TextEncoder.PercentEncode | src/encoding.c:1493-1524 | the retry loop writes exactly the percent-encoded bytes of each code point, an escaped numeric reference for each unencodable one, and the closing escape |
| PercentEncoding.UnescapeByte | src/encoding.c:1465-1474 | one escaped byte reads back as that byte |
| PercentEncoding.FormRoundTrip | src/encoding.c:1493-1524 | for every encoding, state and text, undoing the form percent-encoding gives exactly the encoder output with its numeric references and closing escape, spaces as plus or not |
| QueryText.TextIsAllowed | src/encoding.c:1465-1490 | whatever the text, a special query has no control, no space, nothing above 0x7E and no quotation mark, apostrophe, number sign or angle bracket; a form has letters, digits, percent signs, four punctuation marks, and plus signs only if asked for |
| QueryText.PlainTextStands | src/encoding.c:1465-1490 | a text whose encoding has only bytes that stand for themselves is written as that encoding, in both sets |
| QueryText.QueryStandsIffSafe | src/encoding.c:1465-1490 | a query is written as its encoding if and only if that has nothing to escape |
| QueryText.QueryReadsBack | src/encoding.c:1493-1524 | percent-decoding a special query gives what percent-decoding its encoding gives, references included: escaping breaks no escape of the text and makes no new one |
| QueryText.DecimalReadsBack | src/encoding.c:1493-1524 | the number in a reference is that of its code point, without leading zeros |
| EncodedText.ReplacedExactly | src/encoding.c:1367-1394 | a reference names U+FFFD exactly for the three control characters ISO-2022-JP uses itself, and otherwise the code point |
| EncodedText.ErrorLeavesSingleBytes | src/encoding.c:1367-1394 | after a code point it cannot encode the encoder is in a charset of single bytes and has written nothing but the escape there |
| EncodedText.AnyTextIsDecoded | src/encoding.c:1493-1524 | decoding the encoding of any text, encodable or not, succeeds even in fatal mode and gives the folded text with a numeric reference for each code point the encoding lacks |
| EncodedText.EndsInAscii | src/encoding.c:1446-1453 | behind the closing escape the decoder is back in ASCII |
| EncodedText.FoldedIsWrittenAlike | src/encoding.c:1341-1410 | the yen sign, the overline and the minus sign are written as what they are folded onto in EUC-JP and Shift_JIS |
| EncodedText.HalfWidthIsWidened | src/encoding.c:1367-1394 | ISO-2022-JP writes half-width katakana and the minus sign as their full-width forms, in every state |
| EncodedText.SetAsideIsNotWritten | src/encoding.c:1330-1410 | Shift_JIS never writes the rows that repeat others, Big5 never the rows before the standard ones |
| Encodability.ReadIsEncodable | src/encoding.c:1422-1443 | every code point that some bytes are read as, alone, is encodable in every state of the encoder, unless it is folded or its form is one of those set aside |
| RoundTrip.FourByteDigits | src/encoding.c:1295-1327 | the four bytes of a pointer fall in the decoder ranges and spell that pointer again |
| RoundTrip.RangeByCodePointFinds | src/encoding.c:1280-1292 | the search by code point lands in the range that holds it |
| RoundTrip.RangeByIndexFinds | src/encoding.c:430-443 | the search by pointer lands in the range that holds it |
| RoundTrip.RangesInvert | src/encoding.c:1280-1292 | over ranges increasing both ways, code point to pointer to code point is the identity for every code point only the ranges encode |
| RoundTrip.Gb18030Pair | src/encoding.c:1295-1327 | the two bytes written for any index pointer are in the accepted ranges and decode to its entry |
| RoundTrip.Big5Pointer | src/encoding.c:1330-1338 | the same for Big5 |
| RoundTrip.EucKrPointer | src/encoding.c:1413-1419 | the same for EUC-KR |
| RoundTrip.EucJpPointer | src/encoding.c:1341-1352 | the same for EUC-JP |
| RoundTrip.ShiftJisPointer | src/encoding.c:1397-1410 | the same for Shift_JIS, outside its private rows |
| RoundTrip.EscapeIsEaten | src/encoding.c:1355-1364 | the decoder follows every escape the encoder writes, from any charset to any other |
| RoundTrip.IsoOneIsEaten | src/encoding.c:1367-1394 | one ISO-2022-JP code point, its escape included, decodes to its folded self and leaves decoder and encoder in step |
| RoundTrip.StatelessOneIsEaten | src/encoding.c:1422-1443 | one code point of any other encoding decodes to its folded self |
| RoundTrip.EndIsDecoded | src/encoding.c:1446-1453 | the closing escape and the end of the stream are decoded silently |
| RoundTrip.DecodeAfterEncode | src/encoding.c:1422-1443 | for every output encoding and every string of encodable code points, decoding the encoding succeeds, even in fatal mode, and gives the string with its folded code points replaced |
| RoundTrip.RoundTripsExactly | src/encoding.c:1422-1443 | the string comes back unchanged if and only if it contains no folded code point |
| Calendar.FloorMod | src/datetime.c:10-16 | the remainder of floor division: it has the sign of the divisor and lies below it in size, for negative operands and divisors too |
| Calendar.CivilOfDaysOfCivil | src/datetime.c:19-46 | every valid date, of any year, comes back from its day number |
| Calendar.DaysOfCivilOfDays | src/datetime.c:31-46 | every integer day number gives a valid date that has that day number |
| Calendar.NextDateIsNextDay | src/datetime.c:19-59 | the next date on the calendar has the next day number, and 1970-01-01 is day 0 |
| Calendar.IsoWeekIdentity | src/datetime.c:62-78 | for every year from 1 on, the first Mondays of consecutive ISO years are exactly 7 times the number of weeks apart |
| FormValues.RdDigits | src/datetime.c:81-93 | the loop reads the longest allowed run of digits and its value, or reports no match |
| FormValues.RdDate | src/datetime.c:96-106 | reads a valid date and the position after it, or reports no match |
| FormValues.RdTime | src/datetime.c:109-138 | reads a time with optional seconds and fraction, or reports no match |
| FormGrammar.AcceptsItsGrammar | src/dom.c:265-322 | for every kind of control and every string: the string is accepted with a number if and only if it is spelled as the grammar of that control says, and the number is that of its parts, the fraction of a second cut to milliseconds by its decimal value |
| FormGrammar.DigitsBeyondMillis | src/datetime.c:109-138 | a zero appended to a fraction, or any digit appended behind its third, changes neither acceptance nor number of a time or a local date and time |
| FormRoundTrips.DateReadsBack | src/dom.c:387-455 | every date from year 1 to 275760 is written so that it reads back as the same number |
| FormRoundTrips.MonthReadsBack | src/dom.c:387-455 | the same for months |
| FormRoundTrips.WeekReadsBack | src/dom.c:387-455 | the same for every valid week of every year |
| FormRoundTrips.TimeReadsBack | src/dom.c:374-384 | the same for every time of day in milliseconds |
| FormRoundTrips.DateTimeReadsBack | src/dom.c:387-455 | the same for local date and time |
| FormRoundTrips.NumberToValueInverts | src/dom.c:265-322 | for every string a control accepts, its number is written as a string that reads as the same number |
| FormRoundTrips.RepresentedIsNearest | src/dom.c:387-455 | the number each kind of control can hold for an arbitrary number: the nearest whole day, month or millisecond, the time of day, or the Monday of its week |
| FormRoundTrips.WrittenReadsAsNearest | src/dom.c:387-455 | whatever number is written, the string reads as the number nearest to it that the control can hold |
| FormRoundTrips.WrittenIffRepresentable | src/dom.c:387-455 | a number is written at all if and only if some string reads as the number nearest to it |
| FormRoundTrips.WrittenDateLength | src/dom.c:387-455 | years are written with four digits, more only if they need them, months and days with two |
| FormRoundTrips.WrittenTimeLength | src/dom.c:374-384 | seconds are written only where the minute is not full, three digits of fraction only where the second is not |
| FormRoundTrips.WrittenWithT | src/dom.c:387-455 | a local date and time is written as a valid date, the letter T and a time of day |
| FormRoundTrips.FirstWeekHasJanuary4 | src/datetime.c:72-78 | week 1 of every year starts on a Monday and has January 4 in it |
| CssSyntax.ConsumeSpells | src/css_syntax.c:270-314 | a valid component spans exactly the text its kind, name and value say, and its children tile its inside |
| CssSyntax.ListCovers | src/css_syntax.c:317-349 | a valid list and the comments between its items tile the text up to its closer |
| CssSyntax.ParseIsLossless | src/css_syntax.c:352-363 | whenever the parse is valid, top-level components and comments tile the whole input in order, and so on inside every block and function |
| CssBrackets.ListBalances | src/css_syntax.c:317-349 | a nested list is valid exactly when the flat bracket check accepts its text and the check goes on after it |
| CssBrackets.ValidIffBalanced | src/css_syntax.c:352-363 | the recursive parse is valid if and only if one left-to-right pass with a stack of closers accepts the text, depth limit included |
| CssParser.EscapeEndAt | src/css_syntax.c:34-54 | the scanning loop ends where the escape ends |
| CssParser.NameEndAt | src/css_syntax.c:57-74 | the scanning loop ends where the name ends |
| CssParser.NumberEndAt | src/css_syntax.c:116-138 | the scanning loops end where the number ends |
| CssParser.Parser.SkipComment | src/css_syntax.c:159-171 | skips to the end of the comment, or of the text |
| CssParser.Parser.ReadString | src/css_syntax.c:177-211 | reads the string, its value and its validity |
| CssParser.Parser.ReadNumeric | src/css_syntax.c:214-237 | reads number, percentage or dimension |
| CssParser.Parser.ReadIdent | src/css_syntax.c:240-267 | reads identifier, hash, at-keyword or function; restores the depth |
| CssParser.Parser.Read | src/css_syntax.c:270-314 | the cursor reads the component of the parse function, advances past it, and only ever clears the validity flag |
| CssParser.Parser.ReadList | src/css_syntax.c:317-349 | the loop reads the list of the parse function and restores the depth |
| CssParser.ParseComponentValues | src/css_syntax.c:352-363 | the whole parse reaches the end of the text, is valid exactly for balanced text, and then tiles it |
| CssSelfContained.IsSelfContained | src/css_syntax.c:417-478 | the scan with its fixed 128-entry bracket stack decides self-containment |
| CssSelfContained.SelfContainedComposes | src/css_syntax.c:417-478 | after a self-contained piece, the concatenation with any other text is self-contained if and only if that text is: pieces can be cut and joined |
| CssSheets.SelfContainedIffSheet | src/css_syntax.c:417-478 | a text is self-contained if and only if it is a sequence of statements, comments, markers and white space: at-rules end at a semicolon or a block in braces, other rules at such a block, strings and comments are closed, and brackets nest at most 128 deep |
| CssTokens.NumberIsNumber | src/css_syntax.c:116-138 | what is read as a number is a sign or none, digits, a fraction or none and an exponent or none |
| CssTokens.NumberIsLongest | src/css_syntax.c:116-138 | no longer piece of the text from there is such a number |
| CssTokens.StartsNumberMeans | src/css_syntax.c:101-113 | a number starts at a place if and only if some piece of the text from there is one |
| CssTokens.EscapeEndMeans | src/css_syntax.c:34-54 | an escape is a backslash and up to six hexadecimal digits with one white space behind them, or one other character that ends no line, and ends exactly there |
| CssTokens.NameEndMeans | src/css_syntax.c:57-74 | a name is a run of name characters and escapes, with neither behind it |
| CssTokens.NameIsLongest | src/css_syntax.c:57-74 | no other way to read name characters and escapes from there reaches further |
| CssTokens.StartsIdentMeans | src/css_syntax.c:86-98 | an identifier starts at a place if and only if some piece of the text from there is one |
| CssTokens.ScanFindsString | src/css_syntax.c:177-211 | the scan of a string runs over characters and escapes up to its quote, the end of a line, a backslash in front of one, or the end of the text, and is valid in the first and the last case |
| CssTokens.StringIsUnique | src/css_syntax.c:177-211 | only one place can stop it |
| CssTokens.TokenIsRight | src/css_syntax.c:270-314 | at every place the component has the kind that what stands there calls for, by the grammars of numbers, names and escapes and by what follows the number or name, and each of its pieces is the longest there |
| CssFaults.AnyListCovers | src/css_syntax.c:317-349 | every list of a parse, faulty or not, lies in order over its text with nothing between its components but comments and, outermost, closing brackets that close nothing; it ends with the text or behind the first closing bracket nothing inside claims |
| CssFaults.WholeTextIsCovered | src/css_syntax.c:352-363 | every parse reaches the end of its text and covers it |
| ForestOrder.RootAbove | src/dom.c:1306-1326 | every node lies under exactly one root: none is lost and none is shared |
| ForestOrder.TreeDistinct | src/dom.c:1306-1320 | no node occurs twice in a tree |
| ForestOrder.PruneUnder | src/dom.c:1284-1303 | detaching takes away exactly the subtree |
| ForestOrder.GraftUnder | src/dom.c:1306-1320 | inserting adds exactly the subtree, at whatever position |
| ForestOrder.PruneFirst | src/dom.c:1284-1303 | detaching a subtree without holders leaves the first holder what it was |
| ForestOrder.GraftFirst | src/dom.c:1306-1320 | so does inserting one, at whatever position |
| Forest.DetachKeepsWired | src/dom.c:1284-1303 | detaching leaves a proper forest with the subtree whole at its own root |
| Forest.PlantKeepsWired | src/dom.c:1306-1320 | inserting leaves a proper forest with the child at its place |
| DomTree.Unlink | src/dom.c:1284-1303 | the pointer writes of unlinking, and no other |
| DomTree.SplicedIsDetached | src/dom.c:1284-1303 | those writes turn links that spell a forest into links that spell the forest with the child detached |
| DomTree.DetachNode | src/dom.c:1284-1303 | after detaching, parent, child and sibling links of all nodes are consistent and spell the detached forest |
| DomTree.Link | src/dom.c:1306-1320 | the pointer writes of linking as last child, and no other |
| DomTree.LinkBefore | src/dom.c:1306-1320 | the pointer writes of linking in front of a given child, as src/js.c does in lines 30391 to 30404, and no other |
| DomTree.JoinedIsPlanted | src/dom.c:1306-1320 | those writes turn consistent links into those of the forest with the child inserted |
| DomTree.AppendChild | src/dom.c:1306-1320 | a child is first detached from where it was, then appended; all links stay consistent |
| DomTree.InsertBefore | src/dom.c:1306-1320 | the same in front of a given child, as src/js.c does in lines 30391 to 30404 |
| ForestOrder.BeforeIsTotal | src/dom.c:1963-1995 | preorder position is a strict total order on the nodes of a tree |
| ForestOrder.BeforeIsTransitive | src/dom.c:1963-1995 | and transitive |
| DomOrder.SiblingOrder | src/dom.c:1963-1995 | walking both ways from two siblings at once tells which comes first |
| DomOrder.Verdict | src/dom.c:1963-1995 | the order of the branches below the common ancestor is the order of the nodes |
| DomOrder.DocumentOrderCmp | src/dom.c:1963-1995 | for two nodes of one tree the comparison is -1, 0 or 1 exactly by preorder position; for nodes of different trees it is 0 |
| IdIndex.IdIndex.ForgetFirst | src/dom.c:1817-1824 | clears the first-known bit and nothing else |
| IdIndex.IdIndex.Count | src/dom.c:1827-1842 | adds or removes one in the packed count, drops the bit, and forgets an id with none left |
| IdIndex.IdIndex.Register | src/dom.c:1845-1852 | registering keeps every count equal to its number of holders, every indexed node a holder, and every first-known bit true |
| IdIndex.IdIndex.Unregister | src/dom.c:1855-1862 | so does unregistering |
| IdWalks.FindByIdDepth | src/dom.c:1787-1803 | the walk returns the first holder in preorder, or none exactly when there is none, down to its depth limit |
| IdWalks.AddSubtree | src/dom.c:1865-1877 | registers exactly the ids of the subtree |
| IdWalks.RemoveSubtree | src/dom.c:1896-1908 | unregisters exactly the ids of the subtree |
| Dom.Document.constructor | src/dom.c:1880-1893 | a document without an index is in a valid state |
| Dom.Document.Adopt | src/dom.c:1306-1320 | a new node is a tree of its own and changes nothing about the document |
| Dom.Document.Build | src/dom.c:1880-1893 | building the index makes it agree with the tree |
| Dom.Document.SetId | src/dom.c:1380-1390 | writing an id, with its index call, keeps index and tree in agreement, in the document or outside it |
| Dom.Document.Remove | src/dom.c:1929-1935 | so does removing a subtree, the index call after the unlinking |
| Dom.Document.Insert | src/dom.c:1920-1926 | so does inserting one, in front of a given child or last, under the document or under a detached tree |
| DomLookup.Contains | src/dom.c:2781-2787 | climbing the parents decides whether a node lies in a subtree |
| DomLookup.HitValid | src/dom.c:2381-2389 | a hit counts exactly if it holds the id and lies under the root |
| DomLookup.FindFromDocument | src/dom.c:2401-2443 | a lookup from the document returns the first holder in preorder, whatever the index knew, and leaves the index agreeing with the tree |
| DomLookup.FindFromBelow | src/dom.c:2401-2443 | so does a lookup from below the document |
| DomLookup.FindById | src/dom.c:2401-2443 | every lookup, from any root, indexed or not, returns exactly what the tree walk returns |
| Buckets.Bucket.TrackMembers | src/dom.c:2000-2007 | the member set, once tracked, is exactly the listed nodes |
| Buckets.Bucket.AddBuilding | src/dom.c:2010-2055 | adding in document order while building keeps the list sorted and free of duplicates |
| Buckets.Bucket.Add | src/dom.c:2010-2055 | adds exactly one member, by append, binary insertion, or switching to unsorted above 64 entries; an element of another tree gets no entry in a short sorted list, and an entry otherwise |
| Buckets.Bucket.Remove | src/dom.c:2058-2081 | removes exactly one member in either representation |
| Selections.OneOrdering | src/dom.c:2126-2144 | members in document order without duplicates form exactly one list |
| BucketOrder.CollectInOrder | src/dom.c:2091-2123 | the members in the document come first, in document order, as the walk meets them, the others after them; every member is listed once |
| BucketOrder.Sort | src/dom.c:2083-2088 | sorting by the comparison lists the same nodes, in document order if they are all of the document |
| BucketOrder.NodesInOrder | src/dom.c:2126-2144 | a lookup lists exactly the members; if the bucket was in order and they are all in the document, in document order, from the sorted list or by either rebuild |
| BucketOrder.BucketAfterDetach | src/dom.c:1284-1303 | a bucket stays valid when the tree loses a subtree |
| BucketOrder.BucketAfterPlant | src/dom.c:1306-1320 | a bucket stays valid when the tree gains one, wherever it is put |
| DomBuckets.AddTokens | src/dom.c:2202-2214 | adds exactly the elements of the subtree that carry the token |
| DomBuckets.RemoveTokens | src/dom.c:2217-2229 | removes exactly those |
| DomBuckets.BuildTokens | src/dom.c:2232-2245 | the one walk of a build lists exactly the elements that carry the token, in document order |
| DomBuckets.NodesWithout | src/dom.c:1284-1303 | the marked elements of the document after a detach are those before without those of the subtree |
| DomBuckets.NodesWith | src/dom.c:1306-1320 | and after an insertion those before with those of the subtree |
| DomBuckets.TokenIndex.Build | src/dom.c:2232-2245 | after a build the bucket lists exactly the marked elements of the document |
| DomBuckets.TokenIndex.Remove | src/dom.c:2254-2259 | removing a subtree, the index call after the unlinking, keeps it so |
| DomBuckets.TokenIndex.Insert | src/dom.c:2247-2252 | so does inserting one, in front of a given child or last, under the document or under a detached tree |
| DomBuckets.TokenIndex.WriteClass | src/dom.c:2189-2199 | so does writing a class attribute, if and only if the element is in the document, is not given the token, or is compared with a short sorted list |
| DomBuckets.TokenIndex.Lookup | src/dom.c:2126-2144 | and then a lookup returns exactly what a walk of the document collects, in its order |
| DomBuckets.TwoWrites | src/dom.c:2010-2055 | with an empty list, a detached element that is given the token is found, and an element of the document that is given it next is not |
| DomBuckets.WriteOnDetached | src/dom.c:2010-2055 | a document, two elements and two writes with which that happens |
| CalcSimplifier.Flatten | src/css_calc.c:384-400 | nested sums or products are spliced in place, in order |
| CalcSimplifier.Merge | src/css_calc.c:412-436 | equal units are added into their first occurrence |
| CalcSimplifier.SimplifySum | src/css_calc.c:412-436 | the loops build the simplified sum and report numbers mixed with dimensions |
| CalcSimplifier.FoldNumbers | src/css_calc.c:439-478 | the number factors are multiplied out and the rest keeps its order |
| CalcSimplifier.SimplifyProduct | src/css_calc.c:439-478 | builds the simplified product, distributing the factor where the source does |
| CalcSimplifier.SimplifyFunction | src/css_calc.c:502-537 | folds calc, min, max and the absolute value of like-unit operands, percentages excepted |
| CalcSimplifier.SimplifyTree | src/css_calc.c:540-582 | simplifies the whole tree and says whether it is well typed |
| CalcMeaning.SimpleSumSound | src/css_calc.c:412-436 | flattening and merging keep the value of a defined sum |
| CalcMeaning.SimpleProductSound | src/css_calc.c:439-478 | folding and distributing keep the value of a defined product |
| CalcMeaning.PickSound | src/css_calc.c:502-537 | the least or greatest coefficient stands for the least or greatest value when the unit is not negative |
| CalcMeaning.SimplifyKeepsMeaning | src/css_calc.c:540-582 | for every tree and every assignment of unit values, non-negative except for %, under which it is defined, the simplified tree has the same value |
| CalcMeaning.PercentMustNotFold | src/css_calc.c:481-492 | with a negative percentage basis folding min or max over % would change the value: the exclusion is needed |
| CalcNormal.SimplifiedIsNormal | src/css_calc.c:540-582 | every simplified tree is in normal form |
| CalcNormal.NormalIffFixed | src/css_calc.c:540-582 | a tree is in normal form if and only if simplifying leaves it alone |
| CalcNormal.SimplifyTwice | src/css_calc.c:540-582 | simplifying again changes nothing |
| CalcOrder.SortedPermutes | src/css_calc.c:595-622 | sorting permutes the operands |
| CalcOrder.SortedIsInOrder | src/css_calc.c:585-622 | numbers, percentages, dimensions by unit name, then the rest |
| CalcOrder.SortedKeepsMeaning | src/css_calc.c:595-622 | sorting changes neither sums nor products |
| CalcPrinter.SortByUnit | src/css_calc.c:595-622 | the insertion sort of the dimensions orders them stably by unit name |
| CalcPrinter.SortChildren | src/css_calc.c:595-622 | the four buckets, concatenated, are the canonical order |
| CalcPrinter.Serialize | src/css_calc.c:681-746 | the appending loops write the text of the tree and report whether every number in it reads back to within a part in 10^9 |
| CalcPrinter.SerializeUnwrapped | src/css_calc.c:660-671 | the outer parentheses are taken off |
| CalcPrinter.FunctionCanonical | src/css_calc.c:749-783 | reads, simplifies and prints a math function; fails exactly on unreadable, trailing or ill-typed text and where a number does not print exactly |
| CalcPrinter.MatchingParen | src/css_calc.c:186-196 | the scan finds where the first bracket closes, and gives up at a quote |
| CalcPrinter.Canonicalise | src/css_calc.c:786-804 | trims the text, and fails exactly where it is no call of calc, min, max or clamp that closes at its end, or the function has no canonical text |
| CalcParser.Cursor.SkipSpace | src/css_calc.c:93-99 | skips white space and says whether there was any |
| CalcParser.Cursor.ReadIdent | src/css_calc.c:109-116 | reads a name in lower case |
| CalcParser.Cursor.ReadNumeric | src/css_calc.c:266-291 | reads a number with its unit in canonical form |
| CalcParser.Cursor.ReadArgs | src/css_calc.c:199-244 | reads the arguments of a function, keywords included |
| CalcParser.Cursor.ReadValue | src/css_calc.c:247-310 | the advancing cursor reads exactly what the parse function reads, consumes at least one character, and restores the depth |
| CalcParser.Cursor.ReadProduct | src/css_calc.c:313-341 | the same for products |
| CalcParser.Cursor.ReadSum | src/css_calc.c:344-373 | the same for sums |
| CalcUnits.SameAmountReadsSame | src/css_calc.c:153-167 | for every amount: the same length in in, cm, mm, q, pt, pc and px, the same angle in turn, deg, grad and rad, time in s and ms, frequency in hz and khz, resolution in dppx, x, dpi and dpcm read as the same numeric |
| CalcUnits.UnitIsKept | src/css_calc.c:153-167 | numbers, percentages, relative units and the base units keep their number and unit |
| CalcUnits.UnitIsKnown | src/css_calc.c:153-167 | every other unit is refused |
| CalcGrammarReads.SumIsRead | src/css_calc.c:199-373 | every text of the concrete grammar, with any white space the grammar allows, is read as the tree of that grammar up to exactly its end |
| CalcGrammarFinds.ParserFollowsGrammar | src/css_calc.c:199-373 | for every text: it is read as a tree with some rest if and only if the grammar gives it that tree in front of that rest; products bind closer than sums, operators of sums have white space on both sides, nesting is at most 32 |
| CalcAcceptance.AcceptedExactly | src/css_calc.c:749-783 | a math function has a canonical text if and only if it is a value of the grammar with nothing but white space behind it, its sums do not mix numbers with dimensions, and its simplified numbers survive printing |
| CalcAcceptance.ClosingMeans | src/css_calc.c:186-196 | the bracket found is the first one that brings the count of open brackets to nothing, with no quote before it |
| CalcAcceptance.AdmittedExactly | src/css_calc.c:786-804 | white space around it aside, a value has a canonical form if and only if it is one call of calc, min, max or clamp, in any case of letters, closed by its last character with no quote in it, and has a canonical text |
| CalcNumbers.AdditionLaws | src/css_calc.c:412-436 | addition with infinities and NaN is commutative and associative, has opposites for finite numbers, and keeps order |
| CalcNumbers.MultiplicationLaws | src/css_calc.c:439-478 | multiplication is commutative, keeps the rule of signs, and has no value exactly for NaN and for zero times an infinity |
| CalcNumbers.MultiplicationAssociates | src/css_calc.c:439-478 | and it is associative |
| CalcNumbers.InverseLaws | src/css_calc.c:540-582 | the inverse undoes multiplication by every finite number but zero, and itself for everything but minus infinity |
| CalcNumbers.OrderLaws | src/css_calc.c:495-499 | comparison is a strict total order of all but NaN, turned round by negation |
| CalcNumbers.NoLaterIsAlphabetical | src/css_calc.c:595-622 | units compare by the first place where their lower-cased letters differ |
| CalcNumbers.PrintingOrder | src/css_calc.c:585-622 | in printing order no number comes behind anything else, no percentage behind a dimension, nothing numeric behind the rest, and dimensions are in alphabetical order |
| CalcExtremes.ExtremesReadBack | src/css_calc.c:625-655 | infinity, minus infinity and NaN, with or without a unit, are printed as text that reads as them again |
| CalcSteps.NumericIsRead | src/css_calc.c:247-310 | the printed form of an exactly spelled number with its unit is read back |
| CalcSteps.FactorIsRead | src/css_calc.c:313-341 | the printed " * " and " / " are read as factor and inverse |
| CalcSteps.TermIsRead | src/css_calc.c:344-373 | the printed " + " and " - " are read as term and negation |
| CalcRoundTrip.ValueIsRead | src/css_calc.c:681-746 | the text of any printable tree is read, in any context that can follow it, as one given tree: sorting, " - ", " / " and bracket stripping change neither precedence nor sign |
| CalcRoundTrip.ArgsAreRead | src/css_calc.c:681-746 | so are printed arguments |
| CalcRoundTrip.ReparsedMeans | src/css_calc.c:681-746 | the tree read back has the value of the tree printed |
| CalcCanonical.ValueIsBuilt | src/css_calc.c:247-310 | every tree the parser returns is of a printable shape |
| CalcCanonical.SimplifyKeepsBuilt | src/css_calc.c:540-582 | and stays of one when simplified |
| CalcCanonical.CanonicalIsRead | src/css_calc.c:749-783 | the canonical text, with or without calc(), is read whole |
| CalcCanonical.CanonicalKeepsMeaning | src/css_calc.c:749-783 | for every text the parser accepts, parse, simplify, print and parse again succeeds, gives the value of the original, and no number stands in the way of printing |
| CalcIdempotent.ValueIsTidy | src/css_calc.c:344-373 | the parser puts a negation only before a later term of a sum |
| CalcIdempotent.SimplifyTidies | src/css_calc.c:540-582 | simplification keeps it so, and leaves no sum that mixes numbers with dimensions |
| CalcIdempotent.ReparsedSimplifies | src/css_calc.c:540-582 | what is read back from a normal tree simplifies to that tree with its operands in canonical order |
| CalcIdempotent.SortedAlready | src/css_calc.c:595-622 | sorting leaves operands in canonical order alone |
| CalcIdempotent.CanonPrintsAlike | src/css_calc.c:681-746 | a tree with its operands in canonical order prints as the tree it came from |
| CalcBalance.TextPasses | src/css_calc.c:186-196 | the scan for the closing bracket goes through the text of any printable tree and comes out as deep as it went in |
| CalcIdempotent.CanonicalAgain | src/css_calc.c:749-783 | canonical text put in again gives the canonical text of the same tree, whether or not the first call and the second keep calc() |
| CalcIdempotent.CanonicalStands | src/css_calc.c:786-804 | the canonical text of a value is its own canonical text if and only if it is a calc() put around the result, or a min, max or clamp |
| CalcIdempotent.SineAlone | src/css_calc.c:786-804 | min(sin(1)) becomes sin(1), which is not accepted as a value |
| BytecodeCache.Cache.Init | src/bytecode_cache.c:68-84 | opens the cache and touches nothing in it |
| BytecodeCache.Cache.Shutdown | src/bytecode_cache.c:87-103 | closes the cache with no entry, no byte and no pending key left |
| BytecodeCache.Cache.Mark | src/bytecode_cache.c:440-475 | a key that is not skipped becomes pending |
| BytecodeCache.Cache.Oldest | src/bytecode_cache.c:280-303 | finds an entry used least recently, or none exactly when there is none |
| BytecodeCache.Cache.EvictUntilFits | src/bytecode_cache.c:280-303 | terminates with room for the new value, evicts in order of last use, and evicts nothing that could have stayed |
| BytecodeCache.Cache.Lookup | src/bytecode_cache.c:306-352 | a memory hit returns the stored bytes and only renews their time |
| BytecodeCache.Cache.Promote | src/bytecode_cache.c:306-352 | bytes read from disk are inserted unless the cache has closed, has them already, or they are too large |
| BytecodeCache.Cache.Store | src/bytecode_cache.c:355-383 | a new value is inserted after eviction, an old one kept; the byte count stays exact and within 64 MiB |
| BytecodeCache.Cache.Skips | src/bytecode_cache.c:440-475 | a precompile is skipped exactly if the cache is closed or the key is stored or pending |
| BytecodeCache.Cache.Finish | src/bytecode_cache.c:393-404 | finishing a job takes its key out of the pending set |
| CacheRuns.PreimageIsInjective | src/bytecode_cache.c:106-120 | different (partition, name, source) triples hash different bytes |
| CacheRuns.StepKeeps | src/bytecode_cache.c:306-475 | every locked section of every task, in any order, keeps the cache invariant |
| CacheRuns.RunKeeps | src/bytecode_cache.c:306-475 | so it holds in every state of every run |
| CacheRuns.CacheIsHonest | src/bytecode_cache.c:306-352 | in every state of every run the byte count is exact and at most 64 MiB, every pending key has a live job, and with a collision-free hash a get returns only bytes put for the same triple |
| AnimSteps.AdvanceChanLaw | src/anim.c:1274-1306 | advancing a transition keeps its fields consistent, its events in place and the count in step |
| AnimSteps.StartChanLaw | src/anim.c:604-644 | so does starting one, a running one being cancelled first |
| AnimSteps.CancelChanLaw | src/anim.c:647-655 | so does cancelling, which always leaves it inactive |
| AnimSteps.ObserveChanLaw | src/anim.c:696-762 | so does observing a property |
| AnimSteps.SeekChanLaw | src/anim.c:2049-2101 | so does seeking |
| AnimSteps.ControlChanLaw | src/anim.c:2104-2196 | so do pause, play, finish and cancel |
| AnimRuns.ProgressLaw | src/anim.c:1511-1555 | telling the progress of a run keeps start, iteration and end events in place |
| AnimRuns.CancelRunLaw | src/anim.c:862-882 | cancelling a run closes what it opened and takes it out of the count once |
| AnimRuns.StartRunLaw | src/anim.c:897-929 | starting a run counts it once, unless 256 or more are active |
| AnimRuns.ObserveRunLaw | src/anim.c:932-982 | reconciling a run with its list entry keeps the law: update, restart, cancel or skip |
| AnimRuns.SeekRunLaw | src/anim.c:2049-2101 | so does seeking a run, a cancelled one included |
| AnimRuns.ControlRunLaw | src/anim.c:2104-2196 | so do pause, play, finish and cancel |
| AnimRuns.StartScriptLaw | src/anim.c:1949-2006 | so does starting a script animation |
| AnimRuns.Progress | src/anim.c:1511-1555 | an iteration event comes only inside the active phase, with a higher index than any before, and never past the last iteration |
| AnimLog.ChanMoves | src/anim.c:1274-1306 | one lawful move of a transition keeps the count exact and the log agreeing with every state |
| AnimLog.RunMoves | src/anim.c:1446-1489 | so does one lawful move of a run |
| AnimMoves.ObservationSettles | src/anim.c:1001-1045 | an observation leaves no unlisted transition active, no run past the list, and nothing of a hidden element but its script animations |
| AnimEngine.Engine.constructor | src/anim.c:244-249 | a new engine is valid: exact count, exact active set, orderly log |
| AnimEngine.Engine.Track | src/anim.c:244-249 | restores the exact active set after one element changed |
| AnimEngine.Engine.Tick | src/anim.c:1558-1599 | a frame advances exactly the states in the active set, tells exactly their events, reports an end exactly if an entry retires, and keeps the engine valid |
| AnimEngine.Engine.Observe | src/anim.c:1001-1045 | a style change moves one element, the count and the log exactly as the observation function says and keeps the engine valid |
| AnimEngine.Engine.ObserveTransitions | src/anim.c:765-806 | the listed properties in order, then the ones no longer listed |
| AnimEngine.Engine.ObserveAnimations | src/anim.c:932-982 | the listed animations in order, then the ones past the list, then trimming |
| AnimEngine.Engine.Prune | src/anim.c:302-318 | drops exactly the states of dead elements, and the guarded subtraction of their counts never goes below zero |
| AnimEngine.Engine.Rebase | src/anim.c:321-340 | sets every start time to the given base and nothing else |
| AnimEngine.Engine.ScriptStart | src/anim.c:1949-2006 | starts in the first free place or a new one, or refuses exactly when 256 or more are active |
| AnimEngine.Engine.SeekTransition | src/anim.c:2049-2101 | moves exactly the addressed transition, or nothing |
| AnimEngine.Engine.SeekAnimation | src/anim.c:2049-2101 | moves exactly the addressed run, or nothing |
| AnimEngine.Engine.ControlTransition | src/anim.c:2104-2196 | accepts exactly a transition that is running, finished or cancelled, a cancelled one for playing only, and moves that one and no other |
| AnimEngine.Engine.ControlAnimation | src/anim.c:2104-2196 | accepts exactly a run with a name, or a cancelled one for playing only, and moves that one and no other |
| AnimDiscipline.OrderlyEvents | src/anim.c:1511-1555 | in an orderly log starts never nest, every end closes an earlier start, and iteration indices rise within an open animation |
| AnimDiscipline.LogIsOrderly | src/anim.c:1511-1555 | the log of every transition and animation of every reachable engine is orderly |
| AnimDiscipline.TransitionsAgree | src/anim.c:1250-1271 | in every reachable engine a transition has a start open exactly while its phase is active, and an inactive one is never in that phase |
| AnimDiscipline.AnimationsAgree | src/anim.c:1511-1555 | in every reachable engine an animation has a start open exactly while its phase is active, with no later iteration announced |
| AnimStranded.PhaseFollowsActivity | src/anim.c:1446-1489 | an animation that has been advanced is inactive in its active phase if and only if its active interval has begun and not ended and it was inactive already or takes no time |
| AnimStranded.TickStrands | src/anim.c:1558-1599 | a frame brings that about exactly for an animation that never ends, takes no time, and has begun |
| AnimStranded.ObserveStrands | src/anim.c:932-982 | a style change does so exactly by starting such an animation without a delay, and leaves alone an animation that stays the same |
| AnimStranded.SeekStrands | src/anim.c:2049-2101 | seeking does so exactly for an animation that never ends and takes no time, at or after its beginning |
| AnimStranded.FinishStrands | src/anim.c:2104-2196 | finishing does so exactly for an endless animation that is inactive already or takes no time |
| AnimStranded.OtherControlsStrand | src/anim.c:2104-2196 | the other controls never do; pausing leaves things as they are and playing and cancelling mend them |
| AnimStranded.StrandedByStyle | src/anim.c:1001-1045 | a new engine and one style change after which an animation is inactive in its active phase |
| AnimStranded.StrandedByFinish | src/anim.c:2104-2196 | an animation of one second that is over, made endless by a style change and then finished, is inactive in its active phase |
| AnimClock.TransitionIsStopwatch | src/anim.c:2049-2196 | after any history of frames, pauses, plays, seeks and finishes a transition shows the time of a stopwatch pressed at the same moments; after a frame, a seek or a finish it is active exactly while its end lies ahead |
| AnimClock.AnimationIsStopwatch | src/anim.c:2049-2196 | so does an animation; it is inactive exactly when the watch is over, and after a seek, a finish, or a frame before its end its phase is that of the time shown |
| AnimClock.OverSince | src/anim.c:2049-2196 | the watch is over if and only if some frame, seek or finish found it past its end, or it was over to begin with, and nothing has played or sought it since |
| AnimClock.StartedShows | src/anim.c:897-929 | an animation just started shows a stopwatch that waits, or stands still if its style says paused |
| AnimClock.FramesDoNotMatter | src/anim.c:1558-1599 | however many frames there were, a transition is where the last one alone would have put it and has told exactly the same events |
| AnimClock.FramesOnlyAnnounceIterations | src/anim.c:1558-1599 | for an animation the frames in between decide only which iterations are announced; state, start and end events are those of the last frame alone |
| AnimTold.TransitionIsTold | src/anim.c:1250-1271 | after any history of frames, pauses, plays, seeks and finishes the whole log of a transition is one event for each end of its interval each time the time of the stopwatch crosses it: the length of the interval at its end, the part a negative delay skips at its beginning, 0 on leaving it backwards |
| AnimTold.CancelIsTold | src/anim.c:647-655 | a cancelled transition reports the time the watch shows, cut to the interval |
| AnimTold.RestartIsTold | src/anim.c:604-644 | a transition started over a running one reports that one cancelled first, then begins with what its own delay makes it cross |
| AnimTold.AnimationIsTold | src/anim.c:1511-1555 | the same for an animation: its whole log follows from its watch, starts and ends with the times they carry, and the iterations announced, each the one in progress and never one twice |
| AnimTold.ReachedHasPassed | src/anim.c:1511-1555 | the iteration in progress is the number of whole iterations that fit into the time |
| AnimTold.LastIsLast | src/anim.c:1511-1555 | the last iteration is one less than their number rounded up, the first at least |
| AnimTold.StyleStartIsTold | src/anim.c:897-929 | a style starts an animation before its interval and looks at the time at once |
| AnimTold.RunCancelIsTold | src/anim.c:862-882 | a cancelled animation reports the time the watch shows, cut to the interval where it has an end, if anything was told of it before |
| AnimObserved.ChangeBeginsOrCancels | src/anim.c:765-806 | a changed property begins a transition if and only if it can run, there is room for it or it is running, and its values can be interpolated with no ancestor in transition, or may jump; otherwise a running one is cancelled and nothing else happens |
| AnimObserved.CancelledPlaysAnew | src/anim.c:2104-2196 | playing a cancelled transition begins it again from its delay, with what that makes it tell |
| AnimObserved.ObservedAgain | src/anim.c:932-982 | looking at the same style again takes over its timing and tells nothing; it decides whether the run stands still exactly while no script has |
| AnimObserved.ObservedKeepsTime | src/anim.c:932-982 | and the time goes on from where it was |
| AnimObserved.ScriptOverrides | src/anim.c:932-982 | what a script has paused or resumed, the style no longer does |
| AnimObserved.CancelSticks | src/anim.c:932-982 | what a script has cancelled the same style does not start again; a style of another name does |
| AnimObserved.CancelledRunPlaysAnew | src/anim.c:2104-2196 | playing brings back what a script cancelled, under its name and from its beginning |
| AnimObserved.OtherNameReplaces | src/anim.c:932-982 | an animation of another name in the same place: the old one is cancelled first, then the new one started |
| AnimObserved.ScriptRunShows | src/anim.c:1949-2006 | a run for script has the timing asked for brought into range, and waits for its first frame |
| AnimPlaces.PropertyMeetsItsChannel | src/anim.c:765-806 | in an observation each listed property meets the channel at its place, which alone is told of it |
| AnimPlaces.UnlistedIsDropped | src/anim.c:1001-1045 | and each channel not listed is dropped |
| AnimPlaces.ItemMeetsItsRun | src/anim.c:932-982 | each item of the list meets the run at its place |
| AnimPlaces.PastIsDropped | src/anim.c:932-982 | and each run past the list is dropped |

## Left out
- Text codecs: labels, byte order marks and sniffing, MIME charset parsing, lazy initialisation locks.
- Text codecs: the concrete index tables; the eighteen fixed gb18030 private-use mappings come back only where the index maps their pair, and U+E5E5 has no encoding.
- PercentEncoding.FormRoundTrip: speaks of the form set only, because the special-query set does not escape the percent sign (`QueryText.QueryReadsBack` has what does hold there); malformed UTF-8 input of the percent encoder is taken as the U+FFFD it becomes.
- ReverseIndex.QSort: the library sort is an insertion sort here; only its result matters.
- Calendar: `int` and `long` are unbounded integers.
- FormValues: number and range controls, and the attributes min, max and step.
- FormRoundTrips.NumberToValueInverts: doubles are reals, so rounding to the nearest day or millisecond is exact.
- CSS component values: the numeric value of number tokens stays text; the scan for top-level delimiters is not part of this model.
- DOM: shadow roots, frame documents, children of template elements, nodes at depth 512 or more, and more than 2^31 - 1 nodes; the walk and the indexes treat the first three by different rules.
- DOM: `DomBuckets.TokenIndex` follows the bucket of one class token or tag name; the maps from names to buckets, whose buckets do not touch each other, and the splitting of a class attribute into tokens are not part of this model.
- DOM: the flag that a build is running is a separate method here (`Buckets.Bucket.AddBuilding`); a bucket with nothing in it stands for a missing one.
- BucketOrder.Sort: the library sort is an insertion sort here; of nodes of several trees, which the comparison does not order, only the set is promised.
- calc(): trees are values, so freeing and reuse of nodes are not modelled.
- calc(): spelling and reading a number are parameters assumed inverse on the numbers printed (`CalcSteps.Exact`); infinities and NaN are absorbing and have no meaning; the sign of zero is dropped.
- calc(): round, mod, the trigonometric and the other functions have an arbitrary meaning that depends only on their operands.
- CalcCanonical.CanonicalKeepsMeaning: asks that the simplified tree nests less than the parser's depth limit of 32, brackets that will be stripped included.
- CalcIdempotent.CanonicalStands: asks the same, and that numbers are spelled without brackets and quotes.
- Bytecode cache: compilation, the disk file format and pruning, private browsing, and the time limit of a wait; a get may give up waiting at any moment.
- Bytecode cache: the disk is a map that may lose entries at any moment, and the hash is an arbitrary function.
- Animation: interpolation, timing functions, keyframes and style tables; what comparing two styles found is an input (`AnimSteps.Observation`), and so are shortened durations.
- Animation: the cap of 256 is checked where the source checks it; it is no invariant, because play and seek do not check it.
- Animation: transitions and runs are records in the engine's map rather than separate objects, and transitions are addressed by place rather than by property.
- AnimDiscipline.TransitionsAgree: the log is kept for ever, where the source hands events out and forgets them; a pruned state may leave a start open.
