# A verified model of oxfuzz's protocol, context, analysis and registry core

oxfuzz prepares and drives fuzzing campaigns. This project models the parts of it
whose behaviour is intricate enough to get wrong, in five clusters, and proves what
each is for.

**CAN protocol core.** `IsoTp` is the streaming receiver for section 9.6 of ISO
15765-2:2016, a class with the source's four fields and one method per frame type.
`IsoTpWire` gives the wire format as a grammar that does not mention the receiver, and
shows that a payload is completed exactly where a transmission of it ends, so that
whatever a sender segments comes back in order and once. `UdsAnalysis` runs one receiver
per stream over interleaved traffic; its result is described stream by stream, as if each
had been recorded alone, and its transition counts are conserved and form walks;
`UdsStates` says what each reported state and transition means on the wire. `Dbc` and
`DbcDecode` read Intel and Motorola bit windows and sign-extend them: a window is a slice
of the payload read as one integer, and storing then decoding a value is the identity.
`DbcParse`, `DbcContents` and `DbcMeaning` say which documents make a database and what is
in it. `Candump` and `CandumpRoundTrip` import `candump` logs and print them;
`CandumpMeaning` says which lines are accepted and what they mean.

**Context and agent loop.** `Conversation`, `Assembly`, `Pruning` and `Compaction` shrink
a conversation to a token budget, `FreshResult` bounds one new tool result, and
`AgentRequests` says what is sent for a given conversation. A trace lists everything a
turn shows, asks and is answered; `AgentTrace` is a monitor that knows, from the answers
so far, which event must come next. `AgentSafety`, `AgentShape` and `AgentRuns` say in
terms of the events alone what every accepted trace looks like: who may act, what each
call and each reply comes to, how a turn opens and goes on, what each request holds, and
how many provider calls there are. `AgentWorld` is the world that answers, and shows that
in one world a turn can go one way only. `AgentTurn` runs the turn and proves that its
trace is that one.

**C scanner.** `Stripper` blanks comments and literals with nested loops that follow a
one-byte-at-a-time lexer; `StripperGrammar` gives comments and literals as a grammar of
pieces that does not mention the lexer, and shows that stripping blanks exactly those
pieces; `StripperUtf8` shows that it maps valid UTF-8 (section 4 of RFC 3629) to valid
UTF-8. `Parens` and `CUnit` find function definitions by a depth counter that follows a
grammar of balanced parentheses.

**Intra-procedural analysis.** Over a syntax tree of kinds, children, fields and start
positions (`Ast`, `Paths`): which names hold caller-chosen values (`Taint`), and what that
means for a run of the body (`TaintRun`), what counts as a kill between two sites and what
unkilled statements may do to the variable when they run (`KillPass`), which sites the
paired-site rule reports (`SiteRules`), and when the final list of findings does not
depend on the order they came in (`Findings`).

**Agent registry.** `Registry` keeps a map in memory in agreement with built-in
definitions and a directory of files, over any sequence of saves and deletes.

Where the source changes state step by step, the model is a method or a class proved
against a specification function, and the theorems are about that function. `Bits`,
`Numerals`, `Tally`, `StableSort`, `Common` and `Capture` hold shared vocabulary.

## Where the code falls short of its documentation

For each of these a theorem says exactly when the documented claim holds, and a lemma
gives an input for which it does not.

- The age-based pruner is documented as idempotent. It is, and it is confluent under
  appended messages, exactly when no tool result in the soft-trim band drops 10^18
  characters or more (`Pruning.SoftTrimIdempotentIff`, `Pruning.PruneConfluentIff`,
  `Pruning.VastResultIsTrimmedTwice`). The types allow such a result; no memory holds one,
  so in practice the claim stands.
- Pruning is documented as shrinking tool results. Clearing one that is cheaper than the
  placeholder makes it dearer, and nothing else does (`Pruning.AgedCostsMoreIff`).
- An accepted compaction summary is documented as cheaper than what it replaces, measured
  by the caller's own meter. It is measured against role-labelled text in saturating,
  wrapping 32-bit arithmetic and enters under a heading. Every accepted summary shrinks the
  conversation exactly when the labelled text measures at most one token, or nine tokens
  less than the raw messages cost (`Compaction.CompactionShrinksIff`), which takes an
  overflow: without one, no conversation is safe (`Compaction.ShrinkingIsNeverGuaranteed`).
  `Compaction.AcceptedSummaryMayCostMore` is a conversation that the loop compacts into a
  dearer one, and `Compaction.CompactionCost` bounds the growth.
- Stripping is documented as keeping newlines. A newline escaped by a backslash inside a
  literal is blanked, and no other is (`Stripper.NewlinesKeptUnlessEscaped`,
  `Stripper.ContinuationLosesItsNewline`).
- The kill pass is documented as over-approximating. In the modelled statements of C, and
  of C++ reference declarations, it lets through exactly these changes: `x++`, writing or
  exposing `x` through an lvalue that is not the bare name, binding a reference to it, and
  naming it as an output of inline assembly (`KillPass.UnkilledKeepsIff`,
  `KillPass.IncrementIsNotAKill`).
- Comparing neighbouring sites is documented as comparing two sites of one block with no
  kill between them. A site that is paired with an earlier one is reported exactly when its
  statement shares a block with the site just before it (`SiteRules.NeighboursSufficeIff`);
  `SiteRules.NestingHidesAPair` is a double free that goes unreported.
- The list of findings is documented as independent of the order in which rules run and
  matches come. It is, exactly when no rule has two different findings that start at one
  place (`Findings.OrderIrrelevantIff`). Nested subscripts such as
  `a[strlen(s) - 1][strlen(t) - 1]` have two (`Findings.NestedSubscriptsDependOnOrder`).
- The registry's map is meant to follow the directory. A save that fails after its file was
  replaced (the directory could not be synced) leaves the map behind, and the two agree
  after any saves and deletes exactly when every such failure has been repaired
  (`Registry.StepAgreesIff`, `Registry.RunAgreesIff`).

## Model

| member | source | states |
|---|---|---|
| IsoTp.Reassembler.constructor | crates/hf-automotive/src/isotp.rs:63-71 | a new receiver is idle |
| IsoTp.Reassembler.Reset | crates/hf-automotive/src/isotp.rs:73-78 | the receiver is idle again |
| IsoTp.Reassembler.Finish | crates/hf-automotive/src/isotp.rs:80-85 | hands over the announced number of bytes, without padding, or all there are when they are fewer, and leaves the receiver idle |
| IsoTp.Reassembler.Push | crates/hf-automotive/src/isotp.rs:93-111 | one frame takes the fields to the receiver value that decoding the frame by its control information prescribes, and keeps the receiver invariant |
| IsoTp.Reassembler.SingleFrame | crates/hf-automotive/src/isotp.rs:113-130 | a single frame is judged by itself, whatever was being received |
| IsoTp.Reassembler.FirstFrame | crates/hf-automotive/src/isotp.rs:132-162 | a first frame starts afresh, whatever was being received |
| IsoTp.Reassembler.ConsecutiveFrame | crates/hf-automotive/src/isotp.rs:164-187 | appends an in-order chunk, completes, or abandons the message; ignored when idle |
| IsoTp.ReceiveKeepsInvariant | crates/hf-automotive/src/isotp.rs:93-187 | an active receiver always holds a non-empty, incomplete message; every error leaves it idle, so a reset after one changes nothing; a completed payload is never empty |
| IsoTp.ReassembleAll | crates/hf-automotive/src/isotp.rs:194-208 | returns the payloads completed along the stream, in order |
| IsoTpWire.DecodesSingle | crates/hf-automotive/src/isotp.rs:113-130 | a frame decodes as a single frame with a payload if and only if it is laid out as one: nibble or escaped length, the payload, any padding |
| IsoTpWire.DecodesFirst | crates/hf-automotive/src/isotp.rs:132-162 | a frame decodes as a first frame if and only if it is laid out as one: twelve-bit length, or the 32-bit escape, and some but not all of the message |
| IsoTpWire.CollectingRuns | crates/hf-automotive/src/isotp.rs:132-187 | along an in-order transmission the receiver holds exactly the bytes sent and expects the number of chunks sent plus one modulo 16, whatever preceded it and whatever flow control is mixed in |
| IsoTpWire.ActiveCollects | crates/hf-automotive/src/isotp.rs:132-187 | whenever the receiver is active, some suffix of the stream is the transmission it is collecting |
| IsoTpWire.CompletesExactlyMessages | crates/hf-automotive/src/isotp.rs:93-187 | on every stream, the last frame completes a payload if and only if some suffix of the stream is a transmission of that payload |
| IsoTpWire.ErrorIff | crates/hf-automotive/src/isotp.rs:93-187 | the last frame of a stream is an error if and only if it is laid out as no type of frame, or a transmission is under way and it is a consecutive frame out of order or empty; the error names the number awaited; a stray consecutive frame is no error |
| IsoTpWire.MessageCompletes | crates/hf-automotive/src/isotp.rs:93-208 | a transmission adds exactly its payload, at its last frame, after anything at all |
| IsoTpWire.RoundTrip | crates/hf-automotive/src/isotp.rs:194-208 | reassembling any succession of transmissions and flow control returns exactly the payloads sent, either addressing mode |
| IsoTpWire.SegmentTransmits | crates/hf-automotive/src/isotp.rs:216-238 | segmenting any payload up to 2^32 - 1 bytes transmits it, in frames of any size that has room for the longest header, with or without an address byte: both length escapes, any number of sequence wraps, any padding |
| UdsAnalysis.AnalyseUdsStates | crates/hf-automotive/src/analysis.rs:354-405 | interleaving is harmless: counts, states and transitions are those of reassembling each stream's own frames alone |
| UdsAnalysis.Feed | crates/hf-automotive/src/analysis.rs:371-374 | every receiver stays where its own stream's frames put it, and the outcome is the one the frame's own stream prescribes |
| UdsAnalysis.HistoryStep | crates/hf-automotive/src/analysis.rs:362-388 | a frame changes the history of its own stream only, by at most the one state it completes |
| UdsAnalysis.EveryPduHasAState | crates/hf-automotive/src/analysis.rs:323-347 | no completed payload is skipped by classification |
| UdsAnalysis.SummaryIsUnique | crates/hf-automotive/src/analysis.rs:390-405 | the stream-by-stream description determines the whole result |
| UdsAnalysis.TransitionsConserved | crates/hf-automotive/src/analysis.rs:380-384 | transition counts plus streams with a state equal completed payloads |
| UdsAnalysis.TransitionsFormAWalk | crates/hf-automotive/src/analysis.rs:380-384 | per stream every state is left as often as entered, but for the first and the last |
| UdsAnalysis.EndpointsAreStates | crates/hf-automotive/src/analysis.rs:380-384 | both ends of every counted transition are reported states |
| UdsStates.ClassifiedIff | crates/hf-automotive/src/analysis.rs:323-347 | a payload is classified as a state if and only if it is laid out as it: 7F, service, code; or a first byte of 40 to 7E, or below 40, with the second byte as subfunction when there is one; or anything else |
| UdsStates.StateReportedIff | crates/hf-automotive/src/analysis.rs:354-405 | a state is reported for a stream if and only if consecutive frames of that stream transmit, in the grammar of the wire, a payload laid out as the state |
| UdsStates.SingleFrameCapture | crates/hf-automotive/src/analysis.rs:354-405 | a capture of one single frame reports one payload, no error, no transition, and the one state its payload is laid out as |
| UdsStates.OwnFrames | crates/hf-automotive/src/analysis.rs:362-370 | a stream's own frames are the non-empty data frames of its channel, identifier, identifier width and direction, in their order |
| UdsStates.HistoryFollowsPayloads | crates/hf-automotive/src/analysis.rs:374-388 | the states of a stream are those of its completed payloads, one each, in the order of completion |
| UdsStates.TransitionCounted | crates/hf-automotive/src/analysis.rs:380-384 | a transition is counted exactly as often as the stream's states go from the one to the other at once |
| Dbc.ExtractLittle | crates/hf-automotive/src/dbc.rs:310-315 | the little-endian integer of the payload, shifted to the start bit and masked to the length, or nothing exactly when the window leaves the payload |
| Dbc.ExtractBig | crates/hf-automotive/src/dbc.rs:316-330 | the same slice of the big-endian integer, counted from the most significant bit; the position never underflows |
| Dbc.WholeWords | crates/hf-automotive/src/dbc.rs:310-330 | in a two-byte payload the first byte is the low one of an Intel word and the high one of a Motorola word |
| Dbc.ExtractRaw | crates/hf-automotive/src/dbc.rs:302-333 | a raw field exists if and only if the length is 1 to 64 and the window lies inside the payload |
| Dbc.WalkAdvancesByOne | crates/hf-automotive/src/dbc.rs:317-328 | plus fifteen or minus one is always one place on, in most-significant-first order |
| Dbc.SignedIsTwosComplement | crates/hf-automotive/src/dbc.rs:337-344 | for all widths from 1 to 64 the result is in range and congruent to the field, although the shift overflows at 63 and is skipped at 64 |
| Dbc.ToFieldInverse | crates/hf-automotive/src/dbc.rs:337-344 | every value in the signed range is decoded from some field |
| Dbc.UnsignedIsExactBelow63Bits | crates/hf-automotive/src/dbc.rs:342 | the reported raw integer of an unsigned signal is its field if and only if the field is below 2^63 |
| DbcDecode.Decode | crates/hf-automotive/src/dbc.rs:252-290 | nothing for an unknown identifier, else the entries of the selected signals inside the payload in definition order, with physical value and caption |
| DbcDecode.FindSwitch | crates/hf-automotive/src/dbc.rs:254-258 | the first multiplexor decides, even when it lies outside the payload |
| DbcDecode.SwitchIsFirst | crates/hf-automotive/src/dbc.rs:254-258 | the switch value is the field of the first multiplexor, inside the payload or not |
| DbcDecode.EntryMeaning | crates/hf-automotive/src/dbc.rs:260-284 | a signal has no entry if and only if its window leaves the payload or the switch selects another; its entry has its name and unit, the field as a 64-bit or two's complement integer, factor times base plus offset, and the caption its table gives that integer |
| DbcDecode.EntriesInOrder | crates/hf-automotive/src/dbc.rs:260-284 | a frame lists one entry for each signal that is not left out, in the order of definition |
| DbcDecode.StoreThenRead | crates/hf-automotive/src/dbc.rs:302-333 | storing a value in a window and extracting it returns it, either byte order |
| DbcDecode.StoreLeavesDisjoint | crates/hf-automotive/src/dbc.rs:302-333 | storing in one window changes no disjoint window, whatever the byte orders |
| DbcDecode.StoreThenDecode | crates/hf-automotive/src/dbc.rs:252-344 | storing any in-range signed value and decoding the frame reports it for its signal and leaves every other entry and the switch as they were; multiplexed signals that are not selected may overlap it |
| DbcParse.ParseDatabase | crates/hf-automotive/src/dbc.rs:165-226 | the loops over lines, messages and tables give the database or the error that taking the lines one by one gives |
| DbcContents.AcceptedIff | crates/hf-automotive/src/dbc.rs:165-208 | a document is accepted if and only if its lines are well formed, message identifiers are distinct, signals follow a message and signal names are distinct within it; an error names the first line at fault and its fault |
| DbcContents.DatabaseHolds | crates/hf-automotive/src/dbc.rs:210-226 | each message holds exactly the signals between its line and the next message's, in order, each with the table of the last value line for it, before or after |
| DbcContents.DatabaseHoldsOnly | crates/hf-automotive/src/dbc.rs:210-217 | the keys of the database are those of the message lines |
| DbcMeaning.MessageMeans | crates/hf-automotive/src/dbc.rs:165-226 | a message line's identifier, name and length are in the database with one signal for each signal line of its block, in order, as declared there but for the table of the last value line about it |
| Candump.SecondsToMicros | crates/hf-automotive/src/capture.rs:138-155 | the whole seconds and first six decimals as microseconds, or nothing on a stray character or 64-bit overflow |
| Candump.ParseCandump | crates/hf-automotive/src/capture.rs:199-230 | success gives one frame per line that is not blank, in order; failure names the first malformed line and why |
| CandumpMeaning.LineIff | crates/hf-automotive/src/capture.rs:199-230 | a line gives a frame if and only if its words are a stamp in parentheses, the channel and a frame that say so |
| CandumpMeaning.ReasonIff | crates/hf-automotive/src/capture.rs:206-217 | a line is malformed for the first reason that applies: fewer than three words, a bad stamp, a bad frame |
| CandumpMeaning.SixDigitsValue | crates/hf-automotive/src/capture.rs:144-153 | the decimals of a stamp, however many, count as millionths rounded down |
| CandumpMeaning.MicrosIff | crates/hf-automotive/src/capture.rs:138-155 | a stamp is read if and only if it is whole seconds, alone or with a point and decimals, that make at most 2^64 - 1 microseconds |
| CandumpMeaning.FrameIff | crates/hf-automotive/src/capture.rs:158-197 | a frame is read if and only if it is one to eight hexadecimal characters, extended exactly at eight, and after the sign flags and at most 64 bytes, or a remote mark and a length code of at most 8, or at most 8 bytes |
| CandumpMeaning.TokensSeparate | crates/hf-automotive/src/capture.rs:206 | the words of a line stand in it in order, separated by white space and nothing else |
| CandumpMeaning.BlankIff | crates/hf-automotive/src/capture.rs:202-205 | a line is skipped if and only if it holds nothing but white space |
| CandumpMeaning.LinesEnd | crates/hf-automotive/src/capture.rs:201 | a text is its lines, each ended by a line feed, which the last may lack |
| CandumpRoundTrip.StampRoundTrip | crates/hf-automotive/src/capture.rs:138-155 | every 64-bit microsecond count is read back from its printed stamp |
| CandumpRoundTrip.FrameRoundTrip | crates/hf-automotive/src/capture.rs:158-197 | standard, extended, flexible-data-rate, remote and error frames are read back from their printed bodies |
| CandumpRoundTrip.RoundTrip | crates/hf-automotive/src/capture.rs:199-230 | importing any printed log gives back exactly its frames |
| Stripper.StripCommentsAndLiterals | crates/hf-core/src/c_unit.rs:49-94 | the nested loops write what a one-byte-at-a-time lexer writes, byte for byte |
| StripperGrammar.StrippedIsBlanked | crates/hf-core/src/c_unit.rs:49-94 | however a text reads as plain bytes, line comments, enclosed comments and literals with escapes, stripping it gives the succession of their blanked forms |
| StripperGrammar.EveryTextReads | crates/hf-core/src/c_unit.rs:49-94 | every text reads so |
| StripperGrammar.CommentsComeOutBlank | crates/hf-core/src/c_unit.rs:56-71 | a text that is one comment comes out blank but for its newlines, whatever it says |
| Stripper.KeptOrBlanked | crates/hf-core/src/c_unit.rs:53-90 | each output byte is the source byte or a space |
| Stripper.StrippedIdempotent | crates/hf-core/src/c_unit.rs:49-94 | stripping stripped text changes nothing |
| Stripper.NewlinesKeptUnlessEscaped | crates/hf-core/src/c_unit.rs:47-90 | a newline comes out exactly where one went in that was not escaped inside a literal |
| Stripper.ContinuationLosesItsNewline | crates/hf-core/src/c_unit.rs:74-81 | a four-byte literal whose newline is lost |
| StripperUtf8.StrippedIsValidUtf8 | crates/hf-core/src/c_unit.rs:91-93 | valid UTF-8 stays valid, so the lossy conversion changes nothing |
| Parens.GroupIffClosedAtEnd | crates/hf-core/src/c_unit.rs:121-134 | a byte string is a balanced group of the grammar if and only if the depth first returns to zero at its end |
| CUnit.NoWholeIdentifierIsSkipped | crates/hf-core/src/c_unit.rs:97-105 | searching without overlaps finds every whole-identifier occurrence |
| CUnit.FindClose | crates/hf-core/src/c_unit.rs:121-134 | the loop stops at the one byte that closes the group, or at the end when none does; the depth never underflows |
| CUnit.DefinesFunction | crates/hf-core/src/c_unit.rs:110-137 | holds if and only if some whole-identifier occurrence that is no member access is followed by white space, a balanced group, white space and a brace |
| CUnit.IsDefinition | crates/hf-core/src/c_unit.rs:112-136 | the same for one occurrence |
| CUnit.MentionsIdentifier | crates/hf-core/src/c_unit.rs:97-105 | holds if and only if the name occurs as a whole identifier |
| CUnit.SkipWhitespace | crates/hf-core/src/c_unit.rs:139-144 | stops at the first byte that is not white space, having skipped only white space |
| CUnit.ClassifyUnit | crates/hf-core/src/c_unit.rs:32-45 | of the stripped text: a fuzz entry if and only if it defines the fuzzer's entry point or mentions one of three markers; else an entry program if and only if it defines main |
| CUnit.RoleIgnoresCommentsAndLiterals | crates/hf-core/src/c_unit.rs:29-45 | a unit has the same role before and after stripping |
| CUnit.CommentedOutIsLibrary | crates/hf-core/src/c_unit.rs:29-45 | a unit whose identifiers all stand in comments and literals is library code, whatever they say |
| CUnit.TrailingIsWhitespace | crates/hf-core/src/c_unit.rs:113 | what is trimmed before an occurrence is a Unicode white-space character in UTF-8 |
| CUnit.WhitespaceIsTrailing | crates/hf-core/src/c_unit.rs:113 | every such character at the end is trimmed |
| Assembly.Assemble | crates/hf-context/src/simple.rs:30-76 | the flag loops keep every system message and exactly the window that starts at the first user turn of the longest fitting suffix |
| Assembly.WindowIsLongest | crates/hf-context/src/simple.rs:36-69 | a suffix that starts at a user turn is kept if and only if its dialogue and the system messages fit the budget together, or it costs nothing when the system messages exceed it |
| Assembly.AssembledKeeps | crates/hf-context/src/simple.rs:30-76 | trimming drops exactly the dialogue before its window and keeps the order of the rest |
| Assembly.AssembledFits | crates/hf-context/src/simple.rs:30-76 | within budget whenever the system messages are; no system message is lost |
| Assembly.AssembledStartsWithUser | crates/hf-context/src/simple.rs:56-69 | the first message that is not a system message is a user turn |
| Assembly.KeepsPredecessor | crates/hf-context/src/simple.rs:56-69 | no kept assistant or tool message loses the dialogue message before it |
| Assembly.AssembledIdempotent | crates/hf-context/src/simple.rs:30-76 | trimming a trimmed conversation changes nothing |
| Assembly.AssembledMonotone | crates/hf-context/src/simple.rs:30-76 | a larger budget never starts the window later |
| Pruning.PruneToolResultsByAge | crates/hf-context/src/simple.rs:99-114 | in place and newest first, each tool result ends as its rank from the end prescribes, and nothing else changes |
| Pruning.PrunedByAge | crates/hf-context/src/simple.rs:99-114 | pruning touches tool results only: kept with fewer than three newer ones, cut to their ends with three to nine, cleared with ten or more |
| Pruning.SoftTrimKeepsEnds | crates/hf-context/src/simple.rs:116-129 | a result of at most 1080 characters is left alone; any other keeps its first and last 500 around a marker that counts the rest |
| Pruning.SoftTrimIdempotentIff | crates/hf-context/src/simple.rs:116-129 | trimming twice is trimming once if and only if fewer than 10^18 characters are dropped |
| Pruning.VastResultIsTrimmedTwice | crates/hf-context/src/simple.rs:116-129 | a result of 10^18 + 1000 characters is changed by a second trim |
| Pruning.SoftTrimShrinks | crates/hf-context/src/simple.rs:116-129 | a trimmed result is strictly shorter, in characters and in bytes |
| Pruning.PruneConfluentIff | crates/hf-context/src/simple.rs:88-114 | pruning early and again later equals pruning once later, for all later messages, if and only if no result in the trim band is that long; the same decides idempotence |
| Pruning.PruneConfluent | crates/hf-context/src/simple.rs:99-114 | the direction the loop relies on: pruning on every iteration is pruning once |
| Pruning.AgedCostsMoreIff | crates/hf-context/src/simple.rs:105-111 | a message gets dearer if and only if it is a cleared tool result cheaper than the placeholder |
| Pruning.PrunedCostsNoMore | crates/hf-context/src/simple.rs:99-114 | otherwise pruning never adds tokens |
| Compaction.CallWithRetry | crates/hf-context/src/compaction.rs:386-425 | returns the first reply that is not blank and costs less than its source, or nothing after exactly the retry bound |
| Compaction.Summarize | crates/hf-context/src/compaction.rs:215-255 | an empty summary means no reply was accepted; a failing summariser never becomes text |
| Compaction.MaybeCompact | crates/hf-agent/src/lib.rs:715-769 | the conversation is unchanged or is the first message, one summary and a verbatim tail, with at most three calls |
| Compaction.MiddleIff | crates/hf-agent/src/lib.rs:715-743 | what is summarised is everything between the first message and the first user turn among the last six, of a conversation over budget and longer than eight messages, and nothing without such a turn |
| Compaction.SplicedTailStartsWithUser | crates/hf-agent/src/lib.rs:831-834 | the tail starts at a user turn, so no result is cut from its call |
| Compaction.CompactionCost | crates/hf-agent/src/lib.rs:738-768 | total tokens stay below the previous total plus three per message summarised plus nine, whatever 32-bit wrap-around did |
| Compaction.CompactionShrinksIff | crates/hf-context/src/compaction.rs:373-425 | every accepted summary makes the conversation cheaper if and only if the labelled source measures at most one token or at least nine tokens less than the raw messages cost |
| Compaction.ShrinkingIsNeverGuaranteed | crates/hf-agent/src/lib.rs:738-768 | unless 32-bit arithmetic overflows, every conversation that is compacted has an accepted summary that does not make it cheaper |
| Compaction.DearestSummary | crates/hf-context/src/compaction.rs:392-408 | the dearest summary that is accepted costs, under its heading, eight tokens more than its source measures |
| Compaction.AcceptedSummaryMayCostMore | crates/hf-agent/src/lib.rs:715-769 | an over-budget conversation whose two old turns are summarised by one accepted word and which ends up dearer |
| Compaction.CompactedSurvivesTrimming | crates/hf-agent/src/lib.rs:727-768 | if the tail fits what the system messages leave, trimming the compacted conversation drops nothing |
| AgentTurn.RunTurn | crates/hf-agent/src/lib.rs:322-632 | against any world the turn ends, its trace is accepted by the monitor to the end with what the turn returns, every answer in it is the one the world gave to that question at that time, and 3 + n(1 + m) bounds the provider calls |
| AgentWorld.TurnIsUnique | crates/hf-agent/src/lib.rs:322-632 | there is only one such trace: two finished turns of one agent on one request in one world are equal event by event, sub-turns included |
| AgentSafety.CallsAreCarriedOut | crates/hf-agent/src/lib.rs:498-623 | every tool call of a finished turn has its result: the refusal of an operator who declined it, the refusal for the first obstacle in its way, or what the backend, the inspection or the sub-agent answered, which is asked whenever there is no obstacle; that result is shown cut to 400 characters, put to the guard with the call, and, unless the guard stops the turn, enters the conversation behind its prefix, whole or bounded |
| AgentSafety.AllowedCallsAreDispatched | crates/hf-agent/src/lib.rs:515-590 | an announced, and if manual granted, call of an allowed domain tool with valid arguments in a project is followed directly by its dispatch, and that by its answer |
| AgentSafety.DispatchIsAuthorised | crates/hf-agent/src/lib.rs:515-585 | in every run each domain tool that reaches the backend is allowed, has valid arguments, runs in the selected project, was announced, and was granted for that call under manual autonomy |
| AgentSafety.InspectIsConfined | crates/hf-agent/src/lib.rs:541-561 | inspection tools skip the allow-list but not the approval, and never run without a project |
| AgentSafety.DelegateIsGuarded | crates/hf-agent/src/lib.rs:530-540 | delegation is one level deep, to another agent that was looked up under the name given, allowed and announced, and the sub-turn is run to its end by the same rules |
| AgentShape.TurnOpens | crates/hf-agent/src/lib.rs:328-349 | without a provider or a prompt the turn fails at once; otherwise it opens with the prompt, the whole history and the message, as they are when they fit the budget, else shed of dead branches and, when still too long, with the first accepted of at most three summaries in place of the middle |
| AgentShape.RepliesAreObeyed | crates/hf-agent/src/lib.rs:404-498 | a failed request ends the turn with its error; any reply has its thought shown and then, as it parses, its answer met, its tool called with its arguments, or its lack of either corrected or stopped by the guard; an answer is sent back exactly when a required tool has not been called and it was sent back at most once |
| AgentShape.AnswersMeetTheRequirement | crates/hf-agent/src/lib.rs:413-459 | a turn that ends on an answer under a requirement called the required tool or was sent back exactly twice; never more, and never after the call |
| AgentRuns.IterationsFollow | crates/hf-agent/src/lib.rs:370-632 | each iteration is queued reminders and one request; whatever else enters the conversation is followed by the next iteration until there have been as many as the agent may have, at least one, and then by the notice that they are used up |
| AgentRuns.EachRequestIsGood | crates/hf-agent/src/lib.rs:375-404 | every request is the conversation so far pruned, trimmed and converted; it has no tool-role message, starts its dialogue with a user turn and fits; and it is what pruning and trimming the whole conversation once would send |
| AgentRuns.FinishedTurnShape | crates/hf-agent/src/lib.rs:322-632 | a turn that returns a text has shown its start, thoughts and adjacent call-result pairs, and that text last; one that returns an error shows no end |
| AgentRuns.CallsBounded | crates/hf-agent/src/lib.rs:370-675 | an agent with n iterations whose sub-agents have at most m each makes at most n requests and 3 + n(1 + m) provider calls; summaries need more than six messages of history, and a sub-agent makes at most n calls |
| AgentRequests.SentIsWellFormed | crates/hf-agent/src/lib.rs:381-404 | pruning, trimming and converting give a request that strict providers accept |
| AgentRequests.ViewKeepsContent | crates/hf-agent/src/lib.rs:386-391 | converting for the provider changes no text and no role but that of a tool result, which becomes a user turn |
| AgentTurn.BuildRequest | crates/hf-agent/src/lib.rs:381-395 | the conversation is pruned for good while the request is a trimmed, converted copy |
| AgentTurn.Ask | crates/hf-agent/src/lib.rs:375-411 | drains the reminders, prunes, trims and asks, and goes on with the reply or its error |
| AgentTurn.Finish | crates/hf-agent/src/lib.rs:413-459 | an answer ends the turn or sends the model back, by the completion requirement |
| AgentTurn.UseTool | crates/hf-agent/src/lib.rs:498-623 | a call is announced, run and reported, and the turn goes on unless the guard stops it |
| AgentTurn.PerformGranted | crates/hf-agent/src/lib.rs:530-585 | a granted call ends with the result the monitor expects, having asked the backend, the inspection or the sub-agent exactly when nothing stands in its way |
| AgentTurn.HandleDelegate | crates/hf-agent/src/lib.rs:641-675 | any problem becomes the tool's result; otherwise the sub-turn is run to its end and its outcome is the result |
| AgentTurn.BoundFreshResult | crates/hf-agent/src/lib.rs:790-822 | only an oversized result of a tool other than the read tool is offered to the store, and the result enters bounded by what the store answered |
| FreshResult.BoundedEnters | crates/hf-agent/src/lib.rs:790-822 | a result within the cap enters whole; any other enters strictly shorter and, for any length a machine can count, within the cap: with 4000 characters of each end verbatim, or, if it was saved, as a preview of at most 12000 bytes that names the copy |
| FreshResult.CappedKeepsEnds | crates/hf-context/src/simple.rs:145-160 | the excerpt of an oversized result keeps both ends verbatim around a notice of how many characters are missing, is shorter than the result, and fits the cap |
| FreshResult.HeadWithinIsLongest | crates/hf-spill/src/lib.rs:276-287 | the head is a prefix within the limit, and every prefix within the limit is part of it |
| FreshResult.TailWithinFits | crates/hf-spill/src/lib.rs:289-301 | the tail is a suffix within the limit |
| FreshResult.TailWithinIsLongest | crates/hf-spill/src/lib.rs:289-301 | every suffix within the limit is part of the tail |
| FreshResult.PreviewFits | crates/hf-spill/src/lib.rs:246-274 | a preview never exceeds its limit in bytes, and is the notice between the longest beginning and end that fit around it, or the longest beginning when the notice does not fit |
| AgentTurn.Truncate | crates/hf-agent/src/lib.rs:954-961 | short summaries are kept; long ones keep exactly their first characters and an ellipsis |
| Taint.MentionsInfluenced | crates/hf-analysis/src/context.rs:158-180 | the stack search finds an influenced or untrusted identifier if and only if one occurs in the subtree |
| Taint.CollectNodes | crates/hf-analysis/src/context.rs:98-107 | the stack visits every node of the body once, in its own order |
| Taint.VisitIsInOrder | crates/hf-analysis/src/context.rs:108 | sorting keeps all nodes and puts them in the order of their starts |
| Taint.InfluencedNames | crates/hf-analysis/src/context.rs:71-155 | the growing set is what spreading along the flows in order gives |
| Taint.InfluencedIffCarried | crates/hf-analysis/src/context.rs:71-155 | a name is influenced if and only if it is a parameter or a chain of flows at increasing positions carries a parameter or untrusted source to it |
| Taint.SpreadMonotone | crates/hf-analysis/src/context.rs:110-153 | more parameters never make a name less influenced |
| Taint.SpreadWithinClosed | crates/hf-analysis/src/context.rs:91-93 | the pass stays within every flow-insensitive closed set that holds the parameters |
| Taint.IsFunctionParameter | crates/hf-analysis/src/context.rs:13-24 | holds if and only if the enclosing function declares a parameter of that name |
| Taint.IsAttackerInfluenced | crates/hf-analysis/src/context.rs:62-68 | holds if and only if the name is untrusted, a parameter of the enclosing function, or reached by such a chain in its body |
| TaintRun.RunsAreCovered | crates/hf-analysis/src/context.rs:71-155 | every name that a straight-line run of the body leaves tainted is influenced, where an assignment, initialiser or string builder sets or clears the bit of what it writes by what it reads |
| TaintRun.InfluencedIffEverTainted | crates/hf-analysis/src/context.rs:71-155 | a name is influenced if and only if a run whose writes only set bits taints it |
| TaintRun.CopiesAreInfluenced | crates/hf-analysis/src/context.rs:110-150 | an assignment, initialiser or string builder anywhere in the body that reads a parameter or an untrusted source influences what it writes |
| TaintRun.FlowIff | crates/hf-analysis/src/context.rs:111-150 | a node is taken for a flow if and only if executing it writes that name from that subtree |
| TaintRun.ExecutedIff | crates/hf-analysis/src/context.rs:98-107 | the pass executes exactly the nodes of the body |
| TaintRun.ParameterNamesIff | crates/hf-analysis/src/context.rs:76-88 | the parameters are the names that the entries of the parameter list declare through nested declarators |
| TaintRun.EnclosingIsInnermost | crates/hf-analysis/src/context.rs:183-189 | the enclosing function is the innermost definition on the way from the root |
| KillPass.NodeIsKill | crates/hf-analysis/src/sequence.rs:84-119 | one node counts against the variable exactly in the source's five cases |
| KillPass.StatementKills | crates/hf-analysis/src/sequence.rs:81-130 | the stack walk reports a kill if and only if some node of the statement is one |
| KillPass.IsKilled | crates/hf-analysis/src/sequence.rs:75-79 | the statements are killed if and only if one of them is |
| KillPass.UnkilledKeepsIff | crates/hf-analysis/src/sequence.rs:63-130 | statements let through keep the variable in every run if and only if none holds `x++`, writes or exposes it through an lvalue that is not the bare name, binds a reference to it, or names it as an output of inline assembly |
| KillPass.KeptIff | crates/hf-analysis/src/sequence.rs:63-130 | when no call is passed the variable, statements keep it in every run if and only if none counts against it and none holds a missed form, so no harmless statement is a kill |
| KillPass.PassingKills | crates/hf-analysis/src/sequence.rs:108-119 | a call that is passed the bare variable counts against it, whatever it does |
| KillPass.NodeKillsIff | crates/hf-analysis/src/sequence.rs:84-119 | the five cases: control flow, assignment to the name, an initialised declaration of it, its address, passing it to a call |
| KillPass.IncrementIsNotAKill | crates/hf-analysis/src/sequence.rs:87-119 | `x++` is let through and changes the variable |
| SiteRules.FindEnclosingStatement | crates/hf-analysis/src/sequence.rs:19-34 | climbing finds the nearest ancestor directly inside a block and its index among the named children |
| SiteRules.EnclosingIsNearest | crates/hf-analysis/src/sequence.rs:19-34 | a node's statement is the last on the way down to it that stands directly inside a block, if it is a named node |
| SiteRules.BetweenByPlace | crates/hf-analysis/src/sequence.rs:40-47 | counting named children yields exactly the statements between the two in the text |
| SiteRules.BetweenIff | crates/hf-analysis/src/sequence.rs:40-47 | the statements between two are the named children of the block strictly between them |
| SiteRules.GroupByVariable | crates/hf-analysis/src/query.rs:195-217 | every variable gets its own sites, all of them, in the order matched |
| SiteRules.RunPairedSites | crates/hf-analysis/src/query.rs:181-244 | a capture is reported if and only if it shares a block with its variable's previous capture and nothing between them kills |
| SiteRules.NeighboursSufficeIff | crates/hf-analysis/src/query.rs:219-243 | when sites pass the variable on, a site is reported if and only if it is paired with some earlier site of its variable and shares its block with the site just before it |
| SiteRules.SortedSitesAreInOrder | crates/hf-analysis/src/query.rs:219-220 | sorting by start puts the sites of each block in the order of their statements, in any tree laid out along its text |
| SiteRules.NeighboursSuffice | crates/hf-analysis/src/query.rs:219-243 | when moreover no site's statement nests in another's, the reported sites are all those paired with any earlier site |
| SiteRules.NestingHidesAPair | crates/hf-analysis/src/query.rs:181-244 | for the three captures of `{ if (free(p), c) { free(p); } free(p); }` the rule reports nothing, although the last is paired with the first |
| SiteRules.ReportedKeepsIff | crates/hf-analysis/src/query.rs:233-241 | between a reported pair the variable is kept in every run if and only if there is none of the missed forms |
| SiteRules.PlainNeighboursIff | crates/hf-analysis/src/query.rs:233-241 | between neighbours of one block separated by statements that neither pass the variable on nor hold a missed form, the second is reported if and only if they keep the variable in every run |
| Findings.OrderedAndFirst | crates/hf-analysis/src/query.rs:303-317 | the list strictly increases in position and rule and holds, for each, the finding that came first |
| Findings.ListOrder | crates/hf-analysis/src/query.rs:303-311 | lines come first, then columns, then rules by the dictionary |
| Findings.ListHoldsIff | crates/hf-analysis/src/query.rs:312-316 | the list holds a finding if and only if no earlier one has its rule, line and column |
| Findings.OrderIrrelevantIff | crates/hf-analysis/src/query.rs:292-317 | the list is the same for every order of the findings if and only if no rule has two different ones that start at one place |
| Findings.NestedSubscriptsDependOnOrder | crates/hf-analysis/rules/c/index-at-buffer-size.scm:5-14 | the two matches of a nested subscript give one list or the other, by the order they come in |
| Registry.SavedFilesAreLoaded | crates/hf-agent/src/registry.rs:151-156 | a safe identifier never names an example file or one the loader skips |
| Registry.SafeIdIff | crates/hf-agent/src/registry.rs:151-156 | safe identifiers are one or more ASCII letters, digits, hyphens and underscores |
| Registry.SafeNamesStayInside | crates/hf-agent/src/registry.rs:151-156 | the file of a safe identifier has no separator and no dot but that of its extension |
| Registry.LoadableIff | crates/hf-agent/src/registry.rs:186-195 | a file is loaded if and only if its name ends in .toml after something and not in .example.toml |
| Registry.LoadOrderIrrelevantIff | crates/hf-agent/src/registry.rs:181-207 | a directory loads the same in whatever order it is listed if and only if no two files define one identifier differently |
| Registry.LoadIsReload | crates/hf-agent/src/registry.rs:181-207 | files named by their identifiers override built-ins one for one |
| Registry.StepAgreesIff | crates/hf-agent/src/registry.rs:246-286 | a save or delete, failed or not, keeps the map equal to a fresh reload unless the write failed after replacing the file with something new |
| Registry.RunAgrees | crates/hf-agent/src/registry.rs:246-286 | after any sequence of saves and deletes without such a failure the map equals a fresh reload |
| Registry.RunAgreesIff | crates/hf-agent/src/registry.rs:246-286 | after any saves and deletes, failed ones included, the map equals a fresh reload if and only if every identifier whose write failed half-way was repaired by a later save or delete |
| Registry.SaveThenDelete | crates/hf-agent/src/registry.rs:259-286 | saving an agent that had no file and deleting it gives back directory and map, a shadowed built-in included |
| Registry.SaveMeans | crates/hf-agent/src/registry.rs:246-257 | a save files and registers the definition as a user's, as far as its outcome lets it, and touches nothing else |
| Registry.DeleteMeans | crates/hf-agent/src/registry.rs:265-286 | a delete removes the file and brings the built-in back or drops the agent, which fails exactly when there was none; a file that cannot be removed fails it with nothing changed |
| Registry.AgentRegistry.Builtin | crates/hf-agent/src/registry.rs:161-166 | the built-ins, with no directory |
| Registry.AgentRegistry.WithUserDir | crates/hf-agent/src/registry.rs:172-179 | built-ins overridden by the directory's files; in agreement when files are named by their identifiers |
| Registry.AgentRegistry.LoadUserAgents | crates/hf-agent/src/registry.rs:181-207 | each agent file in listing order replaces or adds its definition, other files are skipped |
| Registry.AgentRegistry.SaveAgent | crates/hf-agent/src/registry.rs:246-257 | refuses without a directory or with an unsafe identifier, changing nothing; otherwise file and map change together, exactly as far as the write got |
| Registry.AgentRegistry.DeleteAgent | crates/hf-agent/src/registry.rs:265-286 | removes the file and restores the built-in or drops the agent; agreement survives every outcome |

## Left out

- IsoTp.Reassembler.FirstFrame: the source ends with a check for an already complete message; it can never succeed, and an assertion says so in its place.
- UdsAnalysis.AnalyseUdsStates: the result is a set of states and a map of counts, because the order of the source's lists is that of its sorted maps.
- UdsAnalysis: `bus_stats`, `change_maps` and `diff` are counting and grouping over one map, and would add only easy members.
- DbcDecode.Decode: physical values are computed over the reals, without floating-point rounding; the minimum and maximum of a signal are not kept, as decoding does not read them.
- DbcParse.ParseDatabase: lines arrive classified by keyword, with what their text says or the fact that it is malformed; the field syntax of `BO_`, `SG_` and `VAL_` lines is left out.
- Candump.ParseCandump: a trailing carriage return and the trimming of a line are not separate steps, since both remove only white space that separates no fields.
- Candump: the Vector ASC, CRTD and GVRET importers differ in field validation only.
- Stripper.ContinuationLosesItsNewline: states one input; the condition for all inputs is NewlinesKeptUnlessEscaped.
- CUnit: names are byte strings of identifier bytes, as the fixed names the source searches for are.
- Conversation: a message is its role and text; tool-call identifiers, temperatures and routing tags play no part in what is kept or sent.
- Compaction.Summarize: only the strategy that the agent loop uses; the segmented and selective strategies promise no shrinking. Identifier validation only logs.
- Compaction.CompactionCost: 32-bit sums wrap, as in a release build; a debug build stops at the overflow.
- AgentTurn.RunTurn: the provider, the approver, the backend, the loop guard, the dead-branch pruner, the store that saves oversized results, the registry and queued reminders are arbitrary functions of what they are asked and of a clock that every question advances; waiting and concurrency are not modelled otherwise. Of the pruner it is only known that it adds no messages.
- AgentTurn.Ask: parsing a reply, reading an argument by name and checking arguments against schemas are arbitrary functions; a reply is its text without surrounding white space; usage records, routing tags and temperatures are not modelled.
- FreshResult.PreviewFits: text is cut between characters, where the source steps byte positions to a character boundary.
- AgentTurn.HandleDelegate: events of a sub-turn are shown to nobody, as the source discards them; they are kept in its own trace.
- AgentSafety.DispatchIsAuthorised: tool names are sorted into delegation, inspection and domain tools beforehand, and fixed message texts are parameters, so their wording is not modelled.
- AgentRuns.FinishedTurnShape: a turn that returns an error, from a missing provider, an unknown skill or a failed request, shows no end, as in the source.
- Taint: parsing is replaced by an abstract syntax tree with kinds, fields and start positions, and node texts are given.
- Taint.SpreadWithinClosed: the least fixpoint is not constructed; every closed set is shown to hold the result.
- TaintRun.RunsAreCovered: a run executes the nodes of the body once, in the order of their starts; loops, branches and aliases are not modelled, and the analysis looks at none of them.
- KillPass.UnkilledKeepsIff: statements run in a model of one variable that has a value and an exposed address; calls and other writes may change it only once its address has escaped. C++ reference parameters given a parenthesised name or a member, and lambda captures, are outside this model.
- SiteRules.RunPairedSites: the result is a set of reported captures; the order of the list is that of Findings.
- SiteRules: the after-event, shape and tainted-argument rules filter matches with the same predicates.
- Findings.OrderIrrelevantIff: a rule's weakness class and severity are fields of the finding, although in the source they follow from the rule.
- Registry: TOML printing and parsing are taken to be inverse, an unreadable directory and leftover staging files are not modelled, and a definition's fields beyond identifier and tier are one text.
- Registry.AgentRegistry.SaveAgent: a directory that cannot be created and a definition that cannot be serialised count as a write that did not happen.
- Registry: listing agents by tier and name, and the fallback default agent.
