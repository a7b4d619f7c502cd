# Verified model of the host-side logic around the q27 engine

A Dafny model of the state machines and algorithms that surround the GPU engine: what the
server may sample inside a tool call, how tool calls are streamed and repaired, how the
token stream is split into channels, how text becomes tokens and prompts become cacheable
prefixes, how draft tokens are accepted, how several requests share one GPU, and how the
prefix and suffix indexes are searched. `dafny verify dfyconfig.toml` checks everything.

Code that changes things step by step is modelled by classes and methods in the same shape
(fields, loops, arrays updated in place). Each method is proved equal to a specification
function; the laws below are proved about those functions, over all inputs or all runs.

## How the project is laid out

- **Tool grammar.** `Json` is the grammar of RFC 8259 sections 2 to 7 at byte level;
  `ToolGrammar` the pushdown machine as a function; `GrammarState`, `GrammarLexemes`,
  `GrammarValues`, `GrammarLanguage` show that it first closes on exactly the legal tool
  calls; `GrammarLiveness` when live states are no dead ends; `GrammarJson` when what is
  accepted is JSON; `GrammarName` which tool a closed call names; `GrammarMachine` is the
  object.
- **Masks and constrainer.** `Signature`, `SignatureLimits` and `SignatureExact` decide when
  equal signatures mean equal languages and which states share one; `MaskLanguage` says what
  a mask should offer in terms of the calls that can still be completed; `MaskCache` is the
  cache; `ConstrainRun` the serial loop as a function with its history; `ToolConstrain` the
  engine pool and the controller object.
- **Streaming repair.** `CallHead` decides where a call's arguments begin, `HeadLanguage`
  says what heads are; `JsonRepair` has the buffered and the streaming repair as functions,
  `JsonTagged` their agreement, content tags included, `JsonMending` what both make of legal
  and of drifted JSON, `JsonRescan` the second buffered scan, `CallRecovery` both on whole
  calls; `ToolStream` the two objects. `Strings` concatenates pieces.
- **Marker splitter.** `StreamSplit` is a one-pass reference; `StreamSplitter` the object.
- **Sampling.** `Sampling` (candidate order, nucleus), `Rejection` (draws and the rejection
  walk), `Sampler` (the loops). Probabilities are lengths of sets of uniform draws.
- **Tokenizer and prompts.** `ByteSymbols`, `Tokenizer`, `TokenizerLaws`, `TokenizerLoops`;
  `TokenPattern` reads the pretokenisation pattern as a backtracking matcher, `Encoding`
  says what an encoding is without computing one; `Chatml`, and `ChatmlRead`, a reader of
  rendered prompts.
- **Scheduling.** `TrimWidths`, `DraftWidths`, `ConductorCore`, `ConductorTrace` (a round
  event by event), `Conductor`, `GpuGate`, `DepthCtl`, `DepthHistory` (the ceiling told by
  what it has seen).
- **Indexes.** `PrefixCache`, `PrefixStore`, `PrefixRuns`, `SuffixDraft`.

Bytes are `char` values; the theorems about bytes hold for all of them, and the tokenizer
limits them to values below 256. Hash functions, `exp`, the JSON parser, `strip_ctrl`, the
rendered tools preamble, clocks and every random draw are parameters.

## Where the code and its comments differ

- `src/toolgram.h` says the unit separator cannot occur in a tool name; nothing checks it,
  and `NAME_VAL` accepts it. Two allowlists then share a cache key (`SeparatorCollides`). A
  `|` in a name collides too (`BarCollides`). The cache key is sound exactly when neither
  byte is allowed in names (`SignatureSoundExactly`).
- The number states are strict so that what the machine accepts parses as JSON. It does
  exactly when the registered name is a JSON string body: names are let through byte for
  byte, a backslash or a control byte in one included (`AcceptsOnlyJsonExactly`).
- A name with a quote in it can never be finished. Every live state can close exactly when
  some registered name stays reachable in spite of such names (`LiveRunsCanClose`); names
  without quotes are enough (`QuoteFreeFinishable`).
- A mask offers the closer id exactly when the body is done, and that includes the states
  inside the closing tag, where its bytes would be refused. There is no other offered token
  that would be (`OfferedAcceptedExactly`).
- `src/stream_split.h` promises a boundary between adjacent calls. An empty think block
  between two calls clears the flag without emitting anything, so their bodies run together
  in `<tool_call>a</tool_call><think></think><tool_call>b</tool_call>` (`CallsThatFold`),
  and exactly with such texts between two calls (`CallsFoldExactly`).
- `src/api_common.h` says that heads beyond the bound never stream. The bound is looked at
  only while the head is undecided after a feed: a longer head streams if no feed stops
  between 512 bytes and the arguments, so it depends on the pieces exactly for such heads
  (`AnyPiecesExactly`).
- `src/api_common.h` keeps the stream's repair rules in step with the buffered ones. The
  recovery scans a call from the call's own brace, so on calls without content tags the two
  part exactly where the call never closes and a quote in its arguments was escaped
  (`StreamIsRecoveredExactly`), even if the arguments themselves have closed: for
  `{"name":"x","arguments":{"a":"b"c"}` the stream sends `{"a":"b\"c"}` and the recovery
  reads `{"a":"b"c"}` (`OpenCallParts`).
- `src/sampling.h` stores the rejected draft as a signed 32-bit number. From 2^31 on the
  value is negative, nothing is excluded, and a walk can reject a draft and emit it as its
  pending token; below, no walk can (`RejectedDraftExcludedExactly`).
- The window the marker scan keeps suffices for all tokens of up to n bytes exactly when n
  is at most 54 (`WindowExactly`).
- The interleaved draft loop ends as the serial loop does exactly when the ceiling is at
  least 1 (`SharedIsSerialExactly`), which the engine's ceilings of 4 to 7 are.
- `src/tokenizer.cpp` states the pretokenisation pattern with the alternative
  `\s*[\r\n]+`, which takes all line breaks of a stretch of white space; the code stops
  behind those of its first line. Every piece is the first match of the pattern with
  `[^\S\r\n]*[\r\n]+` in that place (`PieceIsMatch`). It is the first match of the stated
  pattern exactly if no line break, blank and line break follow each other in the white
  space ahead (`PieceIsStatedExactly`), and a text is cut as stated exactly if it has no
  line of blanks only behind line breaks that do not directly follow a sign
  (`PretokenisedAsStatedExactly`).
- Tokens offered by a mask lead on to a legal call exactly when the allowlist is finishable
  (`AcceptingLeadsOnExactly`).

## Model

| member | source | states |
|---|---|---|
| GrammarLanguage.ClosesExactlyOnToolCalls | src/toolgram.h:118-339 | from a reset the machine first reaches `closed()` on exactly the byte strings that are white space, one call object with a registered name and an RFC 8259 object as arguments, white space, and the closing tag; both directions |
| GrammarLanguage.CallCloses | src/toolgram.h:118-339 | every legal call, with any white space, closes the machine at its last byte |
| GrammarLanguage.TakeCall | src/toolgram.h:118-339 | any byte string that closes the machine can be parsed back into a legal call |
| GrammarValues.FeedValue | src/toolgram.h:131-339 | after any well-formed JSON value the machine stands where a value is complete, at every nesting |
| GrammarValues.TakeValue | src/toolgram.h:131-339 | whatever leads from a value position to a close starts with a well-formed JSON value |
| GrammarLexemes.TakeNumber | src/toolgram.h:147-339 | accepted numbers are exactly RFC 8259 numbers: no leading zero, digits after the point and the exponent |
| GrammarLexemes.TakeString | src/toolgram.h:152-339 | accepted string bodies contain only legal escapes and no raw control byte |
| GrammarState.ClosesIsFirst | src/toolgram.h:40-55 | "closes on w" means: the run on w ends closed and no proper prefix did |
| GrammarState.DeadStays | src/toolgram.h:40-45 | a rejected machine rejects everything after |
| GrammarLiveness.LiveRunsCanClose | src/toolgram.h:152-339 | every reachable live state has a continuation to `closed()` if and only if the allowlist is finishable |
| GrammarLiveness.QuoteFreeFinishable | src/toolgram.h:182-198 | a non-empty allowlist without quotes in its names is finishable |
| GrammarLiveness.CanFinish | src/toolgram.h:152-339 | from every state of a live run a closing byte string is constructed |
| GrammarLiveness.RunKeeps | src/toolgram.h:118-339 | along every live run the stack holds only brackets, the name prefix stays a prefix of a registered name, and literal positions stay in range |
| GrammarJson.CallIsJsonExactly | src/toolgram.h:83-86 | an accepted call is a JSON text in front of the closing tag if and only if the name it carries is a JSON string body |
| GrammarJson.AcceptsOnlyJsonExactly | src/toolgram.h:83-339 | for a list of registered names, everything the machine closes on is a JSON text with the closing tag if and only if every name without a quote is a JSON string body |
| GrammarName.ClosedNamesTool | src/toolgram.h:56-58 | behind every legal call the machine is closed and holds the name of the tool that was called |
| GrammarMachine.Machine.Reset | src/toolgram.h:21-38 | the reset state for a list of names, with the literal word left over from before |
| GrammarMachine.Machine.AdvanceByte | src/toolgram.h:40-45 | one byte moves the object to the machine's next configuration, false once dead |
| GrammarMachine.Machine.AdvanceStr | src/toolgram.h:46-50 | a string moves the object along the run and stops at the first rejected byte |
| GrammarMachine.Machine.TokenOk | src/toolgram.h:61-64 | on a copy, whether the whole token keeps the machine alive; the object itself is unchanged |
| GrammarMachine.Machine.StartValue | src/toolgram.h:131-146 | how a value may start at the top of the stack, closing brackets included |
| GrammarMachine.Machine.NumEndRedispatch | src/toolgram.h:147-151 | the byte after a number is read again in the state behind the value |
| GrammarMachine.Machine.Step | src/toolgram.h:152-339 | the switch over all states computes the machine's decision |
| GrammarMachine.Machine.SignatureString | src/toolgram.h:363-387 | the loops and appends build the cache key |
| GrammarMachine.JoinNames | src/toolgram.h:21-38 | sorted names joined with the unit separator |
| Signature.NamesKeyDecides | src/toolgram.h:21-38 | without the separator in names, equal joined keys mean the same names with the same multiplicity |
| Signature.SignatureDecides | src/toolgram.h:363-387 | reachable states with equal signatures are live-equivalent, for names without the two separators |
| Signature.SameLiveLanguage | src/toolgram.h:363-387 | live-equivalent states accept the same byte strings and agree on `done()` for ever |
| SignatureLimits.SeparatorCollides | src/toolgram.h:363-387 | two allowlists that share a key and differ in what they accept, through the unit separator |
| SignatureLimits.BarCollides | src/toolgram.h:363-387 | the same through a bar in a name |
| SignatureLimits.SignatureSoundExactly | src/toolgram.h:363-387 | over names of any alphabet, equal signatures mean equal languages if and only if neither separator is in it |
| SignatureExact.SignatureExactly | src/toolgram.h:363-387 | for names free of both separators, states share their key if and only if they agree on state, stack and literal progress and, up to the tool name only, on the name so far and on which names are registered how often |
| SignatureExact.NamesKeyExactly | src/toolgram.h:21-38 | two allowlists share their key if and only if they register the same names as often each, in whatever order |
| MaskCache.SameSignatureMask | src/toolgram.h:405-436 | equal signatures give equal freshly simulated masks |
| MaskCache.FreshMaskBit | src/toolgram.h:405-436 | the flag of token id sits at bit id mod 32 of word id / 32 |
| MaskCache.FreshMaskExact | src/toolgram.h:405-436 | from every state a run can reach, with a finishable allowlist: the closer id is offered if and only if what still closes the call holds no brace, any other token if and only if it has bytes and they lead on to something that closes the call or the call closes inside them; no flag is set beyond the vocabulary |
| MaskCache.MaskOffersCalls | src/toolgram.h:405-436 | the same over the text: behind the bytes u of a call in progress a token is offered if and only if u and its bytes begin a legal call or hold a whole one, the closer id if and only if u and something without a brace is a legal call |
| MaskLanguage.AcceptingLeadsOnExactly | src/toolgram.h:52-64 | over all live states of a call, being accepted byte by byte is leading on to a close if and only if the allowlist is finishable |
| MaskLanguage.DoneExactly | src/toolgram.h:52-64 | `done()` holds if and only if the call can be closed without a further brace |
| ConstrainRun.OpenCallMask | src/toolgram.h:405-436 | while a call is open the mask of its state offers exactly the tokens that the text since the marker can go on with |
| ConstrainRun.OfferedAcceptedExactly | src/toolgram.h:405-436 | in every reachable state an offered token is accepted by the machine, with one exact exception: the closer id, if it has bytes, inside the closing tag |
| MaskCache.ToolMaskCache.Build | src/toolgram.h:405-436 | the loop over the vocabulary fills exactly the fresh mask, which for a state a run can reach and a finishable allowlist offers exactly the tokens the call can go on with |
| MaskCache.ToolMaskCache.Get | src/toolgram.h:405-436 | the index handed out holds the mask of the first state with this signature, which is the one simulated afresh when no name asked for so far holds a separator, and then offers exactly the tokens the call can go on with; issued indices keep their masks and known signatures their index |
| MaskCache.GetAll | src/toolgram.h:405-436 | after any sequence of requests over any allowlists every index handed out still holds the mask of the first state with its signature, and, when no name holds a separator, its own fresh mask, offering exactly what its call can go on with |
| ConstrainRun.WindowExactly | src/toolconstrain.h:132-185 | the kept tail finds the last marker of the whole text, and what follows it, for all tokens of at most n bytes if and only if n is at most 54 |
| ConstrainRun.SerialRunIsSafe | experiments/ds4-agent/q27_agent_engine.cpp:761-802 | over every run drawn from the masks, with its stops and exceptions: while a call is open the machine is the run on the bytes since its marker, no open call is given up, and what stands between marker and close begins with exactly one legal call |
| ConstrainRun.StepTold | src/toolconstrain.h:132-211 | one token of any good state told over the text: outside a call it starts one if and only if the last marker of the text since the last call ends inside it, and then the call is open if and only if the run of a reset machine on the bytes behind the marker is alive and not closed, that run being the new state; inside a call the same for the run on the bytes since its marker; and how the loop stands after a close, a spoilt entry and a fenced body |
| ConstrainRun.SerialRunTold | experiments/ds4-agent/q27_agent_engine.cpp:761-802 | over every run drawn from the masks each single token is told that way, whatever came before |
| ConstrainRun.OpenExactlyBehindMarker | experiments/ds4-agent/q27_agent_engine.cpp:761-802 | as long as a request goes on with constraining in force a call is open if and only if there is a marker anywhere in the bytes said so far |
| ConstrainRun.StepKeepsGood | src/toolconstrain.h:132-211 | one token keeps all of that, never rejects, and inside a call never disengages |
| ConstrainRun.ClosedBodyIsCall | src/toolconstrain.h:186-211 | a body that closed the machine has exactly one prefix that is a legal call |
| ConstrainRun.OpenCallCanClose | src/toolconstrain.h:186-211 | an open call always has a closing continuation, for finishable allowlists |
| ToolConstrain.Engine.MaskPoolAdd | src/engine.cuh:2663-2670 | the device pool appends until it is full and then refuses |
| ToolConstrain.ToolConstrainer.Begin | src/toolconstrain.h:42-49 | a request starts fresh, keeps the counters, and keeps what the host remembers of the device pool |
| ToolConstrain.ToolConstrainer.MaskId | src/toolconstrain.h:50-73 | how a slot is found, remembered, re-uploaded or refused; the slot returned holds the fresh mask of the state unless it was remembered, lies inside the live pool and holds another mask, and exactly then it does not |
| ToolConstrain.ToolConstrainer.Stage | src/toolconstrain.h:74-89 | the mask in force is the fresh mask of the staged state, or the pool refused it, which counts a pool drop and ends constraining for the request |
| ToolConstrain.ToolConstrainer.Drop | src/toolconstrain.h:115-131 | clears the constraint and counts a disengagement only if a call was open |
| ToolConstrain.ToolConstrainer.ScanRound | src/toolconstrain.h:132-185 | nothing happens while switched off, without names, inside a call or once the pool was found full; otherwise the scan over the round: which token engages, how many are already consumed, and that the mask of the new state is in force |
| ToolConstrain.ScanIsSerial | src/toolconstrain.h:132-185 | scanning a round gives the state of the serial loop behind the token that starts a call, counting the tokens up to it, or behind all of them if none does |
| ToolConstrain.ToolConstrainer.OnId | src/toolconstrain.h:186-211 | a committed token feeds an open call, skips the ones the scan consumed, and clears the constraint when the call ends; switched off nothing happens |
| ToolConstrain.ToolConstrainer.OnPending | src/toolconstrain.h:107-114 | after the pending token the mask of the state behind it is in force, no mask if it closes the call, none new if it is refused, or the pool refused the upload |
| ToolConstrain.ToolConstrainer.OnDrafts | src/toolconstrain.h:90-106 | each of the five lanes gets the mask of the state behind the drafts before it, as long as they stay legal, whenever every upload was accepted, in particular with room for five; lanes never point outside the pool |
| ToolConstrain.ToolConstrainer.EmitOne | experiments/ds4-agent/q27_agent_engine.cpp:761-802 | scan, feed and stage for one token is one step of the serial run, with its exceptions and the switch to a fenced body, and the mask of an open call is in force afterwards |
| ToolConstrain.ToolConstrainer.EmitAll | experiments/ds4-agent/q27_agent_engine.cpp:761-802 | the loop over all tokens is the serial run up to its stop, or ends in an error because the pool is full |
| ToolConstrain.ToolConstrainer.Serve | experiments/ds4-agent/q27_agent_engine.cpp:761-802 | a whole request on an object used before, begun and drawn from the masks in force: it satisfies all the safety of the serial run without one rejected byte, or the pool filled, which takes 512 masks and at most two per token |
| ToolConstrain.FirstRequest | experiments/ds4-agent/q27_agent_engine.cpp:761-802 | with fresh objects a request of fewer than 256 tokens cannot fill the pool, and its run is safe |
| JsonTagged.StreamIsTagged | src/api_common.h:691-936 | for every arguments body, content tags included, the stream writes what a reading with unlimited look-ahead writes, its final tail included if the object never closes, and both stop behind the same brace |
| JsonTagged.StreamMatchesBuffered | src/api_common.h:691-936 | without content tags that is what the buffered stepper writes |
| JsonTagged.RunsAgree | src/api_common.h:691-936 | the same from every reachable state of the stream, whatever it holds back, half-read tags included |
| JsonMending.ObjectMended | src/api_common.h:644-731 | for every object of RFC 8259 whose strings are spelled with raw newlines, returns and tabs, with inner quotes that do not look like the end of the string, or between content tags, and whatever follows it: the scan closes at the object's own brace, writes exactly the object that is meant, which is legal JSON, and marks what had to be mended |
| JsonMending.DraftIsRecovered | src/api_common.h:1487-1523 | so it is for the buffered scan and the recovery, without content tags |
| JsonMending.DraftIsStreamed | src/api_common.h:867-936 | so it is for the stream, with content tags, and what follows the object is left over |
| JsonMending.LegalIsFixed | src/api_common.h:644-731 | every legal object is a fixed point of both scans, whatever follows it: it closes at its own brace and neither mark is set |
| JsonMending.LegalIsRecovered | src/api_common.h:1487-1523 | so it is for the recovery and the buffered scan |
| JsonMending.LegalIsStreamed | src/api_common.h:867-936 | and for the stream if the object spells no content tag: done, unchanged, and the rest left over |
| JsonMending.LegalCutIsKept | src/api_common.h:663-670 | a legal object that stops arriving anywhere is passed on unchanged as far as it came, by the buffered scan and, tag-free, by the stream with its final tail |
| JsonRepair.StreamRunConcat | src/api_common.h:867-936 | feeding two pieces is feeding their concatenation |
| JsonRepair.TrailConcat | src/api_common.h:840-849 | the trail behind the object does not depend on how it arrives |
| JsonRepair.TrailIs | src/api_common.h:837-849 | behind white space one closing brace is dropped as the call's own, any other byte and everything behind it stays |
| ToolStream.JsonSanitizerStepper.QuoteTerminatesString | src/api_common.h:663-670 | the look-ahead loop decides on the first byte that is no white space, true at the end |
| ToolStream.JsonSanitizerStepper.Step | src/api_common.h:703-731 | one byte of the buffered repair under both mode switches, with the two marks it sets |
| ToolStream.RecoverSegment | src/api_common.h:1487-1523 | both scans of a segment: the second, without look-ahead, only behind an unbalanced first that escaped a quote, with the marks of the scan that counts, the quote mark on balanced segments only; a legal object at the front comes out unchanged and unmarked, a drifted one as the object meant |
| CallRecovery.StreamIsRecoveredExactly | src/api_common.h:1487-1523 | for every call body whose head matches and whose arguments hold no content tag, scanned from the call's brace with the key quoted: the recovery writes for the arguments what the stream sent if and only if the call closes or no quote in the arguments was escaped |
| CallRecovery.RecoveredHasArgs | src/api_common.h:1487-1523 | what the recovery writes for the arguments stands in its output behind the head, and is what its scan makes of the arguments alone |
| CallRecovery.OpenCallParts | src/api_common.h:1487-1523 | a call that stays open behind closed arguments, with what the stream sends and what the recovery reads |
| CallRecovery.MatchedGives | src/api_common.h:940-989 | every body whose head matches is a head in front of its arguments, with the key quoted or not |
| JsonRescan.MarkedMeansClosed | src/api_common.h:1505-1523 | the quote mark is left on segments that balance only |
| ToolStream.ScanSegment | src/api_common.h:1505-1517 | one scan from a brace to the one that balances it, with or without look-ahead |
| ToolStream.ToolCallStreamer.Scan | src/api_common.h:867-936 | the streaming scan of a piece is the stream's run on it, and the trail starts behind the brace |
| ToolStream.ToolCallStreamer.AddTrail | src/api_common.h:840-849 | one closing brace behind the object is dropped, once, whatever arrives when |
| ToolStream.ToolCallStreamer.ValidateDone | src/api_common.h:853-865 | a finished object the parser refuses is marked invalid |
| ToolStream.ToolCallStreamer.Feed | src/api_common.h:768-797 | from the head on: the head decides, gives up beyond its limit, or opens the call; behind it the sanitized text, trail and verdict are those of the argument bytes fed so far, however they were cut |
| ToolStream.ToolCallStreamer.Finalize | src/api_common.h:803-814 | the tail that a held quote or tag still owes, and whether the object completed |
| ToolStream.StreamCall | src/api_common.h:755-990 | over every chunking of a whole call body: the call is opened if and only if its head matches and no feed stopped between 512 bytes and the arguments; then name, fragments with the tail, trail and verdict depend on the body alone and are those of a reading with unlimited look-ahead, without content tags those of the buffered scan; legal arguments without tags come out unchanged, drifted ones as the object meant |
| ToolStream.AnyPiecesExactly | src/api_common.h:768-787 | whether a matching head opens the call is the same for every chunking if and only if the arguments begin within 512 bytes |
| CallHead.Match | src/api_common.h:940-989 | the head matcher computes the head verdict: matched with name and position, undecided, or another shape |
| CallHead.HeadFits | src/api_common.h:940-989 | a decided head stays decided when bytes are added, and what a part leaves open is decided behind that part |
| HeadLanguage.VerdictExactly | src/api_common.h:940-989 | the verdict on any bytes: matched if and only if they are a head with arguments opening behind it, undecided if and only if they are none yet and some continuation is one, refused if and only if no continuation is one |
| HeadLanguage.WholeCallStreams | src/api_common.h:755-990 | a head, a drafted object, white space and the call's own brace: the call opens under its name, its arguments come out as the object meant, and exactly what follows the brace is left |
| CallHead.DecidedAtBrace | src/api_common.h:940-989 | a matching head is decided by the opening brace of the arguments and by no byte before it |
| CallHead.LegalCallOpens | src/api_common.h:940-989 | every call the grammar closes on opens under its own name and from its own arguments on, unless its name is empty or holds a backslash |
| StreamSplit.SplitConcat | src/stream_split.h:37-113 | splitting a text in two pieces, the hold carried over, is splitting it in one |
| StreamSplit.SplitSpells | src/stream_split.h:37-91 | routed bytes with the removed markers put back, and the hold, are the input |
| StreamSplit.HoldIsPartial | src/stream_split.h:99-105 | what is held back is a proper beginning of a marker of its channel, at most 11 bytes |
| StreamSplit.SplitAtMarker | src/stream_split.h:37-91 | jumping to the first marker routes the same bytes as going byte by byte |
| StreamSplit.SplitNoMarker | src/stream_split.h:86-113 | without a marker everything is routed but the longest tail that may become one |
| StreamSplit.MarkupSplits | src/stream_split.h:37-113 | a stream marked up from texts, think blocks and tool calls that hold no marker of their own channel is split back into exactly these, every byte in its channel, with only a tail of the last text held that may become a marker |
| StreamSplitter.Splitter.TailKeep | src/stream_split.h:99-105 | the longest proper beginning of the marker at the end of the hold |
| StreamSplitter.Splitter.EmitHead | src/stream_split.h:106-113 | everything but the kept tail goes to the current channel, as one segment if non-empty |
| StreamSplitter.Splitter.TakeMarker | src/stream_split.h:42-85 | text before the marker is routed, the marker is removed, the channel changes |
| StreamSplitter.Splitter.Feed | src/stream_split.h:37-91 | one feed ends in the channel and hold of the one-pass splitter and routes the same bytes |
| StreamSplitter.Splitter.Flush | src/stream_split.h:92-98 | the hold goes out to its channel |
| StreamSplitter.FeedAll | src/stream_split.h:37-98 | for every chunking: same routing, channel and hold as the one pass over the whole stream, input preserved, hold at most 11 bytes |
| StreamSplitter.CallsFoldExactly | src/stream_split.h:37-91 | of two calls in a stream with a text between them that opens no call, the bodies run together if and only if that text is stray closers and empty think blocks, with at least one block |
| StreamSplitter.EmptyThinkFolds | src/stream_split.h:37-91 | for all bodies: with an empty think block between them two calls run together, back to back they do not |
| Sampling.SortedIsPartialSort | src/sampling.h:26-80 | the first k are in order (value descending, index ascending) and everything else comes after |
| Sampling.CandidatesSortAlike | src/sampling.h:81-123 | a subset that still holds the first k has the same first k |
| Sampling.CandidatesServeAlike | src/sampling.h:143-252 | and so the same served distribution, tie extension included |
| Sampling.NucleusCutsBelowTies | src/sampling.h:143-196 | the nucleus ends where the value strictly drops |
| Sampling.ServedExactly | src/sampling.h:143-252 | the served distribution and no other: greedy for temperature 0 or top-k 1; else the first top-k in order, larger logit first and smaller token of equal ones, their exponential weights measured from the largest, and for top-p below 1 the shortest front between ties that holds at least the share top-p of all the weight |
| Sampling.RetainedIsShortest | src/sampling.h:184-194 | the cut: its mass is at least top-p of the whole, ties are not torn apart, and every shorter front between ties falls short of that share |
| Sampling.ServedWellFormed | src/sampling.h:143-252 | the served distribution has distinct tokens, positive weights, their sum as total, and the first token as maximum |
| Rejection.SampleSelects | src/sampling.h:270-295 | a draw in [0, 1) gives a token exactly when it lies in that token's interval, the draw 0 belonging to the first token left |
| Rejection.SampledExactly | src/sampling.h:263-295 | for every list and draw, well-formed or not: an error exactly on an empty list, or when a token is excluded and no mass is left; never the excluded token; the largest token only for a list without mass; past the end the last token left |
| Rejection.DrawsLength | src/sampling.h:256-295 | the interval is as long as the token's share of what is left after the exclusion |
| Rejection.WalkIsTotal | src/sampling.h:312-337 | the walk never throws, emits accepted drafts and one pending token, and the pending token is never the draft just rejected |
| Rejection.EmitsExactlyInBox | src/sampling.h:312-337 | the walk emits x exactly when the draws lie in the box of x, the draw 0 included |
| Rejection.WalkIsExact | src/sampling.h:312-337 | the volume of that box is the product of the served probabilities of x: speculation does not change the distribution |
| Rejection.RejectThenDraw | src/sampling.h:256-295 | rejecting the draft and drawing from the rest gives every other token its served probability |
| Sampler.Argmax | src/sampling.h:26-80 | the greedy scan finds the first of the largest logits |
| Sampler.WeighAll | src/sampling.h:26-80 | the exponential weights and their sum |
| Sampler.Truncate | src/sampling.h:26-80 | the shortest front that reaches the cutoff, extended over ties, and its mass |
| Sampler.BuildServedDistribution | src/sampling.h:143-204 | errors exactly on bad parameters or no logits, else the served distribution of the full row, with the nucleus that reaches top-p and is the shortest between ties that does |
| Sampler.BuildServedFromCandidates | src/sampling.h:206-252 | the same of a candidate list, whether or not it names a token twice; for one that does not, with the same promise of the nucleus |
| Sampler.SampleLogits | src/sampling.h:26-80 | the sampling loop draws by the served distribution of the full row |
| Sampler.SampleCandidates | src/sampling.h:81-123 | the fast path draws by the served distribution of its candidates, whether or not they name a token twice |
| Sampler.CandidatePathAgrees | src/sampling.h:26-252 | if the candidates are logits and contain the top k, both paths serve the same distribution and return the same token for the same draw |
| Sampler.ServedProbabilityOf | src/sampling.h:256-262 | the probability lookup |
| Sampler.SampleServedFrom | src/sampling.h:270-295 | the draw with exclusion, its two error cases and its numeric tail |
| Sampler.SpecRejectionAccept | src/sampling.h:312-337 | the loop is the walk, with its two size errors |
| Sampler.RejectedDraftExcludedExactly | src/sampling.h:302-337 | a draft id can be rejected and then drawn as the pending token of the same walk, for some lanes and draws, if and only if it is 2^31 or more |
| ByteSymbols.BuildByteMaps | src/tokenizer.cpp:20-41 | the filled tables are the byte alphabet and its inverse |
| ByteSymbols.SymbolInjective | src/tokenizer.cpp:20-41 | no two bytes share a symbol |
| ByteSymbols.AlphabetIs | src/tokenizer.cpp:17-41 | printable bytes stand for themselves, the other 68 for the code points from 256 on, in order and without a gap |
| ByteSymbols.SymbolEncodes | src/tokenizer.cpp:20-34 | a symbol is the UTF-8 encoding of that code point |
| ByteSymbols.WrittenSplits | src/tokenizer.cpp:150-162 | concatenated symbols split at exactly their boundaries |
| ByteSymbols.ReadBack | src/tokenizer.cpp:326-335 | reading the symbols of a byte string gives the bytes |
| Tokenizer.PiecesPartition | src/tokenizer.cpp:216-292 | the pieces are non-empty and concatenate to the text |
| TokenPattern.PieceIsMatch | src/tokenizer.cpp:211-290 | every piece is exactly the first match, at its start, of a backtracking matcher for the seven alternatives with greedy repetition, the fifth as coded |
| TokenPattern.PieceIsStatedExactly | src/tokenizer.cpp:211-290 | it is the first match of the pattern as stated if and only if no line break, blank and line break follow each other in the white space ahead of it |
| TokenPattern.BlankLineIsCut | src/tokenizer.cpp:211-277 | for one, in a line break, a blank and a line break the code takes the first byte and the stated pattern all three |
| TokenPattern.PiecesCutExactly | src/tokenizer.cpp:216-292 | pretokenisation is the only way to cut a text into first matches |
| TokenPattern.PretokenisedAsStatedExactly | src/tokenizer.cpp:211-292 | a whole text is cut as the stated pattern cuts it if and only if it has no line of blanks only behind line breaks that do not directly follow a sign |
| Tokenizer.BestPairLowest | src/tokenizer.cpp:184-193 | the pair picked has the lowest rank, and is the leftmost of those |
| Tokenizer.MergeFinishes | src/tokenizer.cpp:184-197 | merging stops only when no two neighbours have a rank |
| Encoding.MergesExactly | src/tokenizer.cpp:184-197 | merging is the one sequence of merges that takes the lowest rank each time, the leftmost of equal ones, until no pair has one below the largest int |
| Encoding.WordExactly | src/tokenizer.cpp:164-210 | the tokens of a word are those of its merged symbols, part by part, in chunks of 1024 bytes, and no others |
| Encoding.EncodedExactly | src/tokenizer.cpp:294-324 | the encoder gives the one encoding of a text: at each special token the first of the list that stands there, between them spans in which none starts, cut by the pattern and encoded word by word |
| Tokenizer.DecodeConcat | src/tokenizer.cpp:337-341 | decoding is a homomorphism |
| TokenizerLaws.EncodeSplits | src/tokenizer.cpp:294-324 | with `<` only at the front of special tokens, text before a special token is encoded on its own |
| TokenizerLaws.BpeDecodes | src/tokenizer.cpp:164-210 | merging, fallback and 1024-byte chunks lose nothing: a word's tokens decode to the word |
| TokenizerLaws.DecodeEncode | src/tokenizer.cpp:294-341 | decoding an encoding gives the text without the control tokens that were matched, for every byte string |
| TokenizerLaws.RoundTripExactly | src/tokenizer.cpp:294-341 | decoding an encoding gives the text back if and only if no control token was matched |
| TokenizerLaws.MatchedOccurs | src/tokenizer.cpp:294-324 | a control token is matched only where its text occurs |
| TokenizerLoops.Pretokenize | src/tokenizer.cpp:211-292 | the loop with its alternatives cuts the text into non-empty pieces that lose nothing, each the first match of the pattern as coded; the cut is the one of the stated pattern if and only if no line of blanks only stands in the text behind line breaks that do not directly follow a sign |
| TokenizerLoops.NextPiece | src/tokenizer.cpp:226-290 | one turn of that loop ends at the first match of the pattern as coded |
| TokenizerLoops.FindBest | src/tokenizer.cpp:184-193 | the scan for the pair to merge |
| TokenizerLoops.MergeAll | src/tokenizer.cpp:184-197 | merging in place until nothing merges, the lowest rank and leftmost pair first |
| TokenizerLoops.BpeWord | src/tokenizer.cpp:164-210 | tokens of a word, over-long words in chunks of 1024 bytes |
| TokenizerLoops.FindNext | src/tokenizer.cpp:309-315 | the nearest occurrence of any special token |
| TokenizerLoops.EncodeText | src/tokenizer.cpp:294-324 | the encoding loop gives the encoding |
| TokenizerLoops.DecodeToken | src/tokenizer.cpp:326-335 | one token, control tokens invisible |
| TokenizerLoops.DecodeAll | src/tokenizer.cpp:337-341 | all tokens |
| Chatml.ChatmlPrompt | src/api_common.h:252-299 | the rendered prompt; both offsets cut it behind the system block and before the reply opening, and the first is 0 exactly without a system block |
| Chatml.CutAtOpener | src/api_common.h:236-251 | text up to a turn opener encodes to a prefix of the tokens of the whole |
| ChatmlRead.PromptReads | src/api_common.h:252-299 | a reader of prompts with its own idea of the marks reads every rendered prompt back: the system turn with tools and text or the default text, then the messages in order with role and content, then how the reply is opened, if no role holds a line break and no text an end mark |
| Chatml.StableTokensStay | src/api_common.h:252-299 | the tokens up to the stable offset stay a prefix when turns are appended, thinking or not |
| Chatml.SystemTokensShared | src/api_common.h:252-299 | the tokens up to the system offset are a prefix of the prompt's tokens |
| Chatml.InitialHarnessPrefix | src/api_common.h:301-316 | errors exactly when the last message is no user message or an earlier one is no system message; else prefix and full prompt |
| Chatml.HarnessIsTokenPrefix | src/api_common.h:301-316 | the prewarmed tokens are a prefix of the request's own |
| TrimWidths.Trim | src/conductor.h:53-72 | in place: the first k widths become the trimmed ones, the rest and the solo case stay |
| TrimWidths.Victim | src/conductor.h:59-69 | the widest lane above the floor, suffix lanes first, then the higher index |
| TrimWidths.TrimmedIsFilled | src/conductor.h:43-72 | the outcome is water-filled: between floor and want, sum exactly the cap or everything floored, nobody more than one wider than a trimmed lane, and one wider only later in the order |
| TrimWidths.FilledIsUnique | src/conductor.h:43-72 | there is only one such outcome |
| TrimWidths.GrantsFit | src/conductor.h:43-72 | wants of at least 2 and a cap of twice the lanes give grants of at least 2 that fit |
| DraftWidths.DraftAndGate | src/engine.cuh:2440-2458 | the serial gate: drafts passed, steps launched, width and launch order, as promised (`SerialExactly`) |
| DraftWidths.SerialExactly | src/engine.cuh:2440-2458 | the serial outcome and no other: drafts pass up to the first below the threshold or the ceiling, that step is launched too, the width is one more than the drafts and at least 2, and the steps launched are the first ones without a gap, as many as the width needs if the ceiling allows |
| DraftWidths.Draft | src/conductor.h:1183-1335 | every gated member the loop lets go leaves it as its own turns say, which with a ceiling of at least 1 is the serial cap, launch count, width and launch order; suffix members take their proposal; it terminates; and the check at the end holds if and only if no gated member has ceiling 0 |
| DraftWidths.Turn | src/conductor.h:1235-1307 | one step of the loop with the active list compacted in place, order kept |
| DraftWidths.AfterIs | src/conductor.h:1148-1182 | a member is still drafting after n steps exactly while fewer than its ceiling have all passed, and is the serial outcome afterwards |
| DraftWidths.SharedIsSerialExactly | src/conductor.h:1148-1182 | sharing the loop equals drafting alone if and only if the ceiling is at least 1 |
| ConductorCore.RunIsSafe | src/conductor.h:186-309 | over every run with distinct joins, those made inside hooks included: each member is staged, live or gone, once; live and staged keep join order; nobody who left is mentioned again |
| ConductorCore.RoundKeeps | src/conductor.h:213-308 | one round conserves members, order and silence, whatever the hooks answer |
| ConductorCore.SurvivorsExactly | src/conductor.h:213-308 | who is live after a round: those that passed their check and were not done, in order; and when an oversized batch aborts |
| ConductorTrace.RoundHappens | src/conductor.h:213-308 | a round event by event: the staged join, everybody is checked in order and who fails leaves at once, then one solo step, or one draft, a trimmed width for every lane, one fused step with the same widths, and the leavers from the back; whoever a hook stages waits, in order, for the next round |
| ConductorCore.FusedGrantsFit | src/conductor.h:276-301 | grants of a fused round are at least 2, at most the want, and fit the cap |
| ConductorCore.OnePlace | src/conductor.h:196-209 | with distinct joins every member ever joined is in exactly one place |
| Conductor.Scheduler.Join | src/conductor.h:210 | a join is only staged |
| Conductor.Scheduler.CheckMembers | src/conductor.h:221-229 | the checks, erasing while iterating |
| Conductor.Scheduler.LetGo | src/conductor.h:300-306 | members that are done are erased from the back |
| Conductor.Scheduler.RoundTogether | src/conductor.h:255-307 | widths asked, trimmed in place, granted, fused, leavers let go |
| Conductor.Scheduler.Round | src/conductor.h:213-308 | the whole round, its live count and its refusal |
| GpuGate.FirstInFirstOut | src/api_common.h:125-177 | over every interleaving: those who handed over, then those still in line, are the line at the start followed by the arrivals, in order |
| GpuGate.ReachableHasLine | src/api_common.h:125-177 | in every reachable state the live tickets are the interval from serving to next, one thread each, and all but a holder are counted as waiting |
| GpuGate.OneHolder | src/api_common.h:125-177 | at most one thread holds, with the ticket being served |
| GpuGate.HeadCanMove | src/api_common.h:125-138 | the first in line holds or can be woken: no wake-up is lost |
| GpuGate.WaiterRuns | src/api_common.h:126-138 | a waiter runs after exactly ticket minus serving handovers, those of the threads before it, once each, in order |
| GpuGate.LineDistinct | src/api_common.h:125-177 | nobody stands in the line twice |
| GpuGate.YielderWaitsOneTurnEach | src/api_common.h:155-171 | a yielder resumes when exactly everyone behind it has had one turn |
| GpuGate.YieldLine | src/api_common.h:160-171 | a yield hands over exactly when someone is queued, and goes to the tail |
| GpuGate.Gate.TakeTicket | src/api_common.h:126-134 | the critical section of an acquire |
| GpuGate.Gate.HandOver | src/api_common.h:160-171 | the critical section of a yield |
| GpuGate.Gate.Release | src/api_common.h:135-138 | the critical section of a release |
| DepthCtl.ChangeNeedsEleven | src/depthctl.h:52-114 | with the shipped average weight or a smaller one, and bars that leave no more slack than one half, as the shipped ones do (`ShippedLeavesHalf`), the ceiling does not change before the eleventh gated round since the last change or reset |
| DepthCtl.ChangeNeedsDecay | src/depthctl.h:52-114 | for every sane tuning the ceiling moves one level at a time, and only after so many gated rounds that the average weight has eaten all but the slack the bars leave |
| DepthCtl.RunKeeps | src/depthctl.h:52-114 | on every run, for every tuning, the ceiling stays on the ladder and promotes minus demotes is the net change; for a sane tuning all averages stay in [0, 1] |
| DepthCtl.ElevenSuffice | src/depthctl.h:68-92 | eleven is exact: full acceptance promotes on the eleventh round and not on the tenth |
| DepthHistory.CeilingFollowsStay | src/depthctl.h:76-114 | after any run, for any tuning: where the next gated round takes the ceiling is decided by the rounds since its level was entered, through averages in closed form: up if the hits reach the bar of the level, else down if the ceiling is reached too rarely at levels 6 and 7 or, when this round reached it, the hits among the rounds that did are too few |
| DepthHistory.RunRemembers | src/depthctl.h:52-114 | on every run the averages of the live level are the closed ones of its stay, and nothing of an earlier stay is left in them |
| DepthHistory.MissesDemoteAtEleven | src/depthctl.h:93-113 | with the shipped constants a level above the lowest whose top lane always fires and always misses is left on the eleventh round and not before |
| DepthCtl.Controller.EnterLevel | src/depthctl.h:52-59 | entering a level |
| DepthCtl.Controller.Reset | src/depthctl.h:68-74 | learned state is forgotten, tunables stay |
| DepthCtl.Controller.Fold | src/depthctl.h:79-113 | one round folded in, with its early returns |
| PrefixCache.HashRulesNobodyOut | src/prefix_cache.h:174-201 | with truthful headers an entry is usable exactly when its tokens are a long enough proper prefix |
| PrefixStore.Cache.Find | src/prefix_cache.h:179-201 | a longest usable entry whose stored tokens are an exact proper prefix of the prompt, even if hashes collide, or none exists; with truthful headers the longest stored proper prefix of all |
| PrefixStore.Cache.Verify | src/prefix_cache.h:354-362 | the stored tokens equal the prompt's, element by element |
| PrefixStore.Cache.Has | src/prefix_cache.h:223-230 | an entry of that length and key is indexed |
| PrefixStore.Cache.Write | src/prefix_cache.h:234-280 | a completed write publishes the whole file, replaces its entry and leaves the index within budget; a failed one leaves index and finished files alone; headers stay truthful |
| PrefixStore.Cache.EvictToBudget | src/prefix_cache.h:284-304 | removes the shortest oldest-first run that brings the total within budget, with those of its files that let themselves be unlinked; headers stay truthful |
| PrefixStore.Cache.Rescan | src/prefix_cache.h:314-349 | the index is exactly the complete and readable files of this cache's kind, once each, and leftover temporaries are gone but for those that resist being unlinked, in any listing order; a directory that cannot be listed leaves everything as it was |
| PrefixStore.CompleteExactly | src/prefix_cache.h:234-349 | the header check of a rescan passes exactly the files a write of this kind could have finished, so no cut-off file and no other model's |
| PrefixStore.Cache.CrashAndRestart | src/prefix_cache.h:232-349 | wherever a write is cut off, in the middle of its eviction included, which files are left; after the next start every indexed entry is a complete file, the old one or the new one, and headers stay truthful |
| PrefixRuns.LookupAfter | src/prefix_cache.h:104-349 | after any history of writes, failed writes, evictions, crashes and restarts from an empty directory, a lookup serves exactly the longest indexed entry whose stored tokens are a proper prefix of the prompt; at least the write just completed, if its file fits the budget and is the newest; and, with room for everything and readable disks, at least every completed write whose name did not go to other tokens |
| PrefixRuns.EverythingIndexed | src/prefix_cache.h:234-349 | over every history with room for all its files and readable disks, every completed write stays indexed and readable unless other tokens took its name |
| PrefixRuns.NewestIsKept | src/prefix_cache.h:234-304 | a completed write newer than all files and entries survives its own eviction if its file fits the budget |
| PrefixRuns.Happen | src/prefix_cache.h:234-349 | one write, or one death and restart, is one step of the history: what is on disk and indexed afterwards |
| PrefixStore.FrontIsDoomed | src/prefix_cache.h:284-304 | the front of the sorted index up to where the rest fits is a shortest oldest-first run |
| SuffixDraft.Drafter.IndexPos | src/suffixdraft.h:35-39 | the index keeps the latest 64 positions of every key |
| SuffixDraft.Drafter.Reset | src/suffixdraft.h:42-46 | the index after a reset is that of the prompt |
| SuffixDraft.Drafter.Append | src/suffixdraft.h:47-50 | and stays that of the stream |
| SuffixDraft.Drafter.Scan | src/suffixdraft.h:71-81 | the longest match among the candidates, the most recent of equals, or none |
| SuffixDraft.Drafter.ProposeWith | src/suffixdraft.h:61-91 | the longest suffix match of 4 to 256 tokens over the candidates, and a proposal that continues it, running on into itself |
| SuffixDraft.CandidatesAreAll | src/suffixdraft.h:20-39 | up to 64 hash-equal positions no match in the stream is missed |
| SuffixDraft.MissedIsOlder | src/suffixdraft.h:20-39 | beyond that, whatever is missed is older than all 64 candidates |

## Left out

- GrammarLanguage.ClosesExactlyOnToolCalls: UTF-8 validity of strings (RFC 8259 section 8.1) is not stated, because the machine does not enforce it.
- MaskCache.ToolMaskCache.Get: masks are rows of 32 flags instead of packed 32-bit words.
- ToolConstrain.ToolConstrainer.Begin: the object's promises about masks are for names without the two separator bytes; with one the cache may hand out the mask of another allowlist.
- ToolConstrain.ToolConstrainer.Serve: draws come from the staged mask, the closer id only once the body is complete, and tokens have at most 54 bytes; whether a closed call starts a fenced body is a parameter, and what is written inside the fence, stalls and cancellation are not modelled.
- JsonTagged.StreamMatchesBuffered: bodies with `<content>` tags are not modelled on the buffered side; the statement starts at the opening brace of the arguments.
- JsonMending.DraftIsStreamed: drift that makes a quote or closing tag look like the end of its string, as in `{"a":"b",c"}`, is cut there by the code and not promised to be mended.
- ConstrainRun.OpenExactlyBehindMarker: for requests that start with a fresh window; behind a fenced body constraining is off and nothing is promised.
- ToolStream.ToolCallStreamer.ValidateDone: JSON parsing is a parameter.
- ToolStream.RecoverSegment: the choice of segments, the fence guard and the repair of truncated calls around the two scans are not modelled.
- CallRecovery.StreamIsRecoveredExactly: of the rewriting in front of the scans only the quote put before the key of the head is modelled; other unquoted keys and unquoted names are left as they are.
- StreamSplitter.FeedAll: stated over routed bytes; where empty boundary segments fall depends on the chunking.
- Sampling.ServedWellFormed: real arithmetic with `exp` as any positive function; float rounding and the random generator are not modelled.
- ChatmlRead.PromptReads: texts that hold an end mark, or roles with a line break, are not promised to read back.
- Chatml.ChatmlPrompt: `strip_ctrl` and the rendered tool schemas are parameters; stripping of billing headers is not modelled.
- Chatml.StableTokensStay: for an empty message list the first appended message must not be a system message, since that one replaces the default system text.
- DraftWidths.Draft: margins are a table; GPU streams, events and the sampling bootstrap are not modelled, and a fused launch counts like a solo one. A member with ceiling 0 whose margins never fall is excluded: the loop would not end.
- ConductorCore.RoundKeeps: the draft phase is one hook call; the fallback that asks members one by one differs only in the order of hook calls. Token queues are not part of this model.
- GpuGate.FirstInFirstOut: sequentially consistent; tickets are unbounded instead of 64-bit.
- PrefixStore.Cache.Write: whole-file contents are written or torn; a file is readable or not; a root that is no directory and `read_state` are not modelled.
- SuffixDraft.Drafter.ProposeWith: 32-bit token wrap in the hash is part of the hash parameter.
- DepthCtl.ChangeNeedsDecay: rounds are drafted under the live ceiling, in exact arithmetic; a tuning whose average weight lies outside [0, 1] or whose demote bars are negative is held to the ladder only (`RunKeeps`).
- Bare-call recovery heuristics, name inference, HTTP, authentication, the pinned-memory tier, sessions, and everything that runs on the GPU are not part of this model.
