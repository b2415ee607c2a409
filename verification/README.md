# Verified model of the llavon input method core

A Dafny model of the parts of the llavon input method that carry state between keystrokes, processes and threads, with
proofs of what they promise. `dafny verify dfyconfig.toml` checks all of it.

The model follows the program's own form. Objects whose methods change fields are classes (`CompositionBuffer`,
`PhraseOverrideStore`, `CommitStore`, `InputSession`, `PredictionState`, `Reader`, `SyllableCell`), each method proved
against a function of the old state; loops over strings and tables are methods with loops. What is asynchronous or
concurrent is a state machine with one action per critical section, callback or delivered message, and its theorems
speak about every run. The lemmas about whole runs, transformations and round trips are about the functions, so they
hold of the methods too.

- **Text** (`Utf`): UTF-8 of section 4 of RFC 3629 and UTF-16 of sections 2.1 and 2.2 of RFC 2781, the conversions of the
  client, the bounded tails, and the two validity checks of the protocol.
- **Mixed input** (`AsciiTokenizer`, `MixedPaths`, `TopK`, `MixedDecoder`, `DecodedEdges`, `Replay`, `MixedApply`,
  `MixedSession`): raw keys become a graph of ASCII tokens and Bopomofo syllables, the best paths through it are kept, one
  is shown as a preview and later replayed key by key into the composition.
- **Composition** (`Syllables`, `Keymap`, `KeyRules`, `Compositions`, `CompositionEffects`, `CompositionRuns`,
  `CompositionBuffers`): keys, segments, caret, selection, candidates and the revision counter.
- **Prediction** (`Prediction`, `PredictionProtocol`, `PredictionReplies`, `PredictionFate`): one request at a time over a
  transport that may delay, repeat and reorder answers, while the user edits, commits, resets and the transport restarts.
- **Service** (`SessionManager`, `SessionSafety`, `SessionCalls`, `SessionRelease`, `SessionDeadlock`, `SessionEviction`):
  opening, predicting, closing, reaping and shutting down by any number of threads.
- **Accessibility samples** (`SampleAdoption`): removing the preedit from a sampled text.
- **Phrase overrides** (`PhraseStore`, `PhraseSyntax`, `PhraseFile`, `PhraseOverrides`, `PhrasePinning`, `PhraseSettling`): the
  keyed store, its text file, the pass that forces stored phrases onto a composition, and what repeating it does.
- **Training data** (`TrainingSamples`, `SampleContents`, `CommitStaging`, `CommitFates`, `CommitStores`): building samples,
  accepting, staging, withdrawing and writing them.
- **Transport and protocol** (`ServiceTransport`, `TransportAnswers`, `Messages`, `Wire`, `Protocol`, `Frames`, `FrameLayout`,
  `Readers`, `Codec`): the request queue with its worker, and the binary protocol as both sides implement it.

Where the code departs from its documentation or its evident purpose the model follows the code, a theorem says exactly
when the documented behaviour holds, and a lemma gives an input on which it does not:

- A queued prediction whose session starts closing is not cancelled: it locks the session's mutex while it holds it, its
  flag stays set, and neither the close nor a shutdown that waits for that session returns. A prediction can release its
  session exactly unless the session starts closing before the prediction has passed the closing check
  (`SessionRelease.CheckDecides`,
  `SessionRelease.ReleasedExactlyUnlessClosing`; a run: `SessionDeadlock.QueuedPredictionBlocks`).
- A preview becomes the composition exactly when it involves no code point 0: the preview shows a zero unit, the buffer
  drops it (`MixedApply.PreviewIsResult`, `MixedSession.InputSession.SettlePendingPreview`, `PhrasePinning.RangeShowsPhrase`;
  inputs: `Departures.NullCandidateIsDropped`, `Departures.NullPhraseIsNotShown`).
- A stored phrase survives saving and loading exactly when it does not begin with `#` and none of its readings holds an
  ideographic space (`PhraseFile.LoadUndoesPrint`, `PhraseOverrides.FileRoundTrip`; inputs: `Departures.CommentPhraseIsLost`,
  `Departures.WideSpaceIsLost`).
- Repeating the pass that pins stored phrases may change the composition once more, and never again: a new match over a
  part of an old pinned run leaves pins until the next pass (`PhraseSettling.SecondPassIdle`,
  `PhraseSettling.TwoPassesSettle`; an input: `Departures.LeftoverPinGoesLater`).
- A sample built from the composition is accepted by the service exactly when every character of the composition is a
  Unicode scalar; literal halves of a surrogate pair are not (`TrainingSamples.CompositionSampleAcceptable`; an input:
  `Departures.LoneHalfIsRefused`). `add_literal` takes such a half, but the input processor only passes it ASCII keys,
  table punctuation and menu symbols, so no key delivers one.
- A reading cut off by the end of an accessibility sample is accepted at any segment, not only at the last, and the
  segments behind it then contribute nothing. The result is the documented one exactly when no longer suffix ends inside
  a segment before the last (`SampleAdoption.DocumentedUnlessEarlyCut`; an input: `SampleAdoption.EarlyCutIsStripped`).

## Model

| member | source | states |
|---|---|---|
| Utf.Utf8OctetsAreEncodings | engine/src/text/utf.cpp:31-70 | The byte sequences of the RFC 3629 grammar are exactly the encodings of sequences of scalars. |
| Utf.ConversionsAreInverse | engine/src/text/utf.cpp:111-140 | The two conversions undo each other; UTF-16 converts exactly when it encodes scalars, UTF-8 exactly when it is well formed. |
| Utf.VisitOne | engine/src/text/utf.cpp:33-69 | One turn of the visitor finds a character exactly where the grammar has one, with its value and its end. |
| Utf.Utf8ToU32 | engine/src/text/utf.cpp:74-78 | Returns the scalars that the bytes encode, or fails exactly when they encode none. |
| Utf.Utf8ToU16 | engine/src/text/utf.cpp:111-123 | Converts well-formed UTF-8 to the UTF-16 of the same scalars and fails on everything else. |
| Utf.U16ToUtf8 | engine/src/text/utf.cpp:125-140 | Converts well-formed UTF-16 to the UTF-8 of the same scalars and fails on everything else. |
| Utf.TailOfScalars | engine/src/text/utf.cpp:100-109 | The bounded UTF-16 tail of a text is the encoding of its longest suffix of whole scalars that fits, so no surrogate pair is split. |
| Utf.LongestTailExists | engine/src/text/utf.cpp:100-109 | There is always such a longest suffix. |
| Utf.PrefixEnd | engine/src/text/utf.cpp:80-86 | The offset behind the first `cursor` scalars; the whole document is validated, also behind the cursor. |
| Utf.PreviousStart | engine/src/text/utf.cpp:90-92 | Walking back over tail bytes reaches the start of the last character, whose length it reveals. |
| Utf.TailStart | engine/src/text/utf.cpp:87-96 | Walking back whole characters stops at the longest tail within the limit. |
| Utf.Utf8PrefixTail | engine/src/text/utf.cpp:80-98 | The fast tail equals the simple one: the UTF-16 tail of the conversion of the first `cursor` scalars. |
| Utf.ClientValidUtf8 | engine/src/protocol/protocol.cpp:194-214 | The client's own check accepts exactly the UTF-8 of RFC 3629. |
| Utf.ServiceValidUtf8 | ime-unix-service/src/pipe/protocol.cpp:273-306 | The service's own check accepts exactly the UTF-8 of RFC 3629. |
| SampleAdoption.SpelledIsExplained | engine/src/context/sample_adoption.hpp:20-34 | A text that spells one nonempty form of every segment, possibly cut inside a reading, is explained by the segments. |
| SampleAdoption.ExplainedIsSpelled | engine/src/context/sample_adoption.hpp:44-73 | Conversely an explained text spells such forms. |
| SampleAdoption.CellValue | engine/src/context/sample_adoption.hpp:53-71 | One table cell is computed as the recursive relation says, from the cells of the next segment. |
| SampleAdoption.FillTable | engine/src/context/sample_adoption.hpp:48-73 | Filled in place, every cell of the table holds the relation for its suffix and its segments. |
| SampleAdoption.StripPreeditSuffix | engine/src/context/sample_adoption.hpp:35-81 | The sample up to the least start from which it is explained; nothing exactly when there is no such start; it is the documented result exactly when no longer suffix ends inside a segment before the last. |
| SampleAdoption.DocumentedUnlessEarlyCut | engine/src/context/sample_adoption.hpp:20-34 | The documented result, in which every segment shows a form and only the last may be cut off, is returned exactly when no suffix longer than the documented one ends inside the reading of an earlier segment. |
| SampleAdoption.EarlyCutIsStripped | engine/src/context/sample_adoption.hpp:64-68 | An input on which the results differ: one symbol of the first of two readings is stripped, although the second segment shows nothing. |
| SampleAdoption.KeepsOnlyCommitted | engine/src/context/sample_adoption.hpp:29-34 | When the sample is committed text followed by the shown composition, possibly cut, the result is always a prefix of the committed text. |
| Syllables.PopUndoesAccept | engine/src/bopomofo/syllable.cpp:42-115 | Backspace undoes an accepted symbol when no tone was typed before it. |
| Syllables.AcceptedText | engine/src/bopomofo/syllable.cpp:42-70 | Accepting appends the symbol to the text, or puts it before a tone typed early, and changes nothing else. |
| Syllables.PoppedText | engine/src/bopomofo/syllable.cpp:97-115 | Popping removes exactly the last symbol of the text and fails only on an empty syllable. |
| Syllables.SyllableCell.Accept | engine/src/bopomofo/syllable.cpp:42-70 | Accepts a symbol exactly when it can follow what is there, setting only the part of its kind. |
| Syllables.SyllableCell.Overwrite | engine/src/bopomofo/syllable.cpp:72-95 | Replaces the part of the symbol's kind; a tone needs something to stand on. |
| Syllables.SyllableCell.PopBack | engine/src/bopomofo/syllable.cpp:97-115 | Removes the last part that is there. |
| Keymap.TypedKeepsSomething | engine/src/bopomofo/keymap.cpp:35-310 | An accepted key leaves a nonempty syllable, a completing key a complete one, a rejected key the same one. |
| Keymap.TypedStaysProper | engine/src/bopomofo/keymap.cpp:35-310 | Typing, with all rewritings of the Hsu layout, keeps every part of the syllable of its own kind. |
| KeyRules.HsuSpells | engine/src/bopomofo/keymap.cpp:36-243 | Every syllable the Hsu layout has keys for is typed by them, part by part: no key is refused and only the tone key completes it. |
| KeyRules.TonesRewrite | engine/src/bopomofo/keymap.cpp:37-110 | What a tone key makes of a lone initial and of G before the first or third medial. |
| KeyRules.PartsRewrite | engine/src/bopomofo/keymap.cpp:194-232 | Which initial stands before a medial or a final: palatal and retroflex ones turn into each other. |
| KeyRules.StandardInitials | engine/src/bopomofo/keymap.cpp:247-260 | The standard layout has the initials in order along its columns. |
| KeyRules.StandardRhymes | engine/src/bopomofo/keymap.cpp:247-260 | And the medials and finals. |
| Keymap.ApplyHsuKey | engine/src/bopomofo/keymap.cpp:35-245 | The step-by-step Hsu rules make the syllable, status and alternative readings of the rule functions. |
| Keymap.ApplyBopomofoKey | engine/src/bopomofo/keymap.cpp:286-310 | One key on either layout; a rejected key leaves the syllable as it was. |
| CompositionRuns.AddKeysFollows | engine/src/buffer/composition_buffer.cpp:139-172 | Typing a whole syllable is all or nothing: on failure segments and caret are exactly as before, on success nothing that was there changed. |
| CompositionRuns.EditFollows | engine/src/buffer/composition_buffer.cpp:57-573 | Every editing operation keeps the caret, anchor and last-edited index in range and every segment sound, never lowers the revision, and raises it when segments or caret change. |
| CompositionRuns.RevisionIdentifiesComposition | engine/src/buffer/composition_buffer.cpp:57-573 | Over every sequence of operations, two states with the same revision have the same segments and caret. |
| CompositionEffects.BackspaceTakesOne | engine/src/buffer/composition_buffer.cpp:187-217 | A shown character goes whole, an open reading loses exactly its last symbol, and a reading of one symbol goes with its segment. |
| CompositionEffects.RemovesOne | engine/src/buffer/composition_buffer.cpp:559-569 | One segment goes and the caret stays between the same neighbours. |
| CompositionEffects.ClearsUnfinished | engine/src/buffer/composition_buffer.cpp:325-335 | The unfinished reading before the caret goes, else the one behind it, else the first; nothing when there is none. |
| CompositionEffects.LiteralInserts | engine/src/buffer/composition_buffer.cpp:174-185 | A character is inserted at the caret, which moves behind it. |
| CompositionEffects.KeyTypes | engine/src/buffer/composition_buffer.cpp:86-137 | A key makes the open reading what the layout makes of it, in place or at the caret, or changes nothing. |
| CompositionEffects.SymbolTypes | engine/src/buffer/composition_buffer.cpp:57-84 | A symbol goes into the open segment where it fits, replaces its kind, or begins a segment. |
| CompositionEffects.NaturalKeys | engine/src/buffer/composition_buffer.cpp:86-137 | When a key extends the reading naturally. |
| CompositionEffects.MovesByOne | engine/src/buffer/composition_buffer.cpp:224-264 | Moving and selecting leave the text alone and move the caret by one. |
| CompositionEffects.ChoosesOne | engine/src/buffer/composition_buffer.cpp:527-557 | Choosing shows the chosen candidate as the user's choice, cancelling the first one as nobody's. |
| CompositionEffects.RefreshKeepsChoices | engine/src/buffer/composition_buffer.cpp:454-473 | New candidates replace neither the user's choice nor the shown character of a pinned phrase. |
| CompositionEffects.PinningOffersAll | engine/src/buffer/composition_buffer.cpp:480-507 | A pinned segment shows its character in front and still offers every other candidate. |
| CompositionEffects.PhrasesWholeOrNot | engine/src/buffer/composition_buffer.cpp:480-507 | A phrase is pinned whole or not at all. |
| CompositionBuffers.CompositionBuffer.AddBopomofo | engine/src/buffer/composition_buffer.cpp:57-84 | Extends or overwrites the open segment before the caret, or starts a new one there, and keeps the buffer valid. |
| CompositionBuffers.CompositionBuffer.AddBopomofoKey | engine/src/buffer/composition_buffer.cpp:86-137 | One key: which segment it changed, whether it completed it and whether it only added to it. |
| CompositionBuffers.CompositionBuffer.AddBopomofoKeys | engine/src/buffer/composition_buffer.cpp:139-172 | A syllable typed key by key; a failure restores segments and caret. |
| CompositionBuffers.CompositionBuffer.Backspace | engine/src/buffer/composition_buffer.cpp:187-217 | Removes a finished segment whole, else the last symbol, and the segment when nothing is left of it. |
| CompositionBuffers.CompositionBuffer.RemoveSegment | engine/src/buffer/composition_buffer.cpp:559-569 | Removes one segment and keeps the caret where it was in the text. |
| CompositionBuffers.CompositionBuffer.ExtendSelection | engine/src/buffer/composition_buffer.cpp:242-256 | Moves the caret within the composition and remembers where the selection began. |
| CompositionBuffers.CompositionBuffer.ClearUnfinishedReading | engine/src/buffer/composition_buffer.cpp:325-335 | Removes the unfinished segment at the caret, else the first one. |
| CompositionBuffers.CompositionBuffer.SetSegmentCandidates | engine/src/buffer/composition_buffer.cpp:439-452 | Replaces the candidates of a segment unless a manual choice is to be kept. |
| CompositionBuffers.CompositionBuffer.RefreshSegmentCandidates | engine/src/buffer/composition_buffer.cpp:454-473 | New candidates keep the character of a pinned phrase in front and an explicit choice untouched. |
| CompositionBuffers.CompositionBuffer.ApplyPhraseOverride | engine/src/buffer/composition_buffer.cpp:480-507 | Pins a phrase over complete segments that were not chosen explicitly, or changes nothing. |
| CompositionBuffers.CompositionBuffer.ClearPhraseOverrideChoices | engine/src/buffer/composition_buffer.cpp:513-525 | Releases exactly the pins of a range; the revision moves only when there was one. |
| CompositionBuffers.CompositionBuffer.SelectCandidate | engine/src/buffer/composition_buffer.cpp:527-542 | Marks an explicit choice, which ends a pin. |
| CompositionBuffers.CompositionBuffer.CancelCandidateSelection | engine/src/buffer/composition_buffer.cpp:544-557 | Returns a segment to its first candidate, unless nothing was chosen. |
| CompositionBuffers.CompositionBuffer.RenderedComposition | engine/src/buffer/composition_buffer.cpp:343-347 | The concatenation of what the segments show. |
| CompositionBuffers.CompositionBuffer.CompletedSegmentIndices | engine/src/buffer/composition_buffer.cpp:402-408 | The indices of the complete segments, in order. |
| AsciiTokenizer.ScanNumber | engine/src/input/ascii_tokenizer.cpp:38-47 | Digits with single dots only between digits, as far as they go. |
| AsciiTokenizer.WholeNumberIsUnique | engine/src/input/ascii_tokenizer.cpp:38-47 | A position starts at most one number that cannot be continued. |
| AsciiTokenizer.ScanDomain | engine/src/input/ascii_tokenizer.cpp:67-98 | The longest label(.label)+ whose last label is at least two letters, nothing when there is none. |
| AsciiTokenizer.ScanEmail | engine/src/input/ascii_tokenizer.cpp:100-113 | Finds the end of local@domain with the longest local part and domain, and finds it whenever there is one. |
| AsciiTokenizer.ScanUrl | engine/src/input/ascii_tokenizer.cpp:115-145 | Exactly the whole address, its authority and its prefixes up to a slash. |
| AsciiTokenizer.ScanFilesystemPath | engine/src/input/ascii_tokenizer.cpp:147-178 | Exactly the whole path and its prefixes with a slash; none when a component is empty. |
| AsciiTokenizer.TokenizeAscii | engine/src/input/ascii_tokenizer.cpp:191-251 | Exactly the tokens of the grammar that start here, one per end with the kind of lowest rank, the single unit first. |
| MixedPaths.ExtendConsistent | engine/src/input/mixed_input_decoder.cpp:206-224 | Extending a path keeps its cached rendering, Latin count and score those of its segments, which tile the input so far. |
| MixedPaths.ExtendScore | engine/src/input/mixed_input_decoder.cpp:209-214 | The incremental penalties add up to 12 for each change of kind and 6 for each Latin segment after the first. |
| TopK.InsertEntry | engine/src/input/mixed_input_decoder.cpp:191-204 | After any sequence of insertions a bucket holds at most 8 inserted entries with distinct renderings, and every inserted entry is represented by one at least as good or outranked by a full bucket. |
| TopK.SortByScore | engine/src/input/mixed_input_decoder.cpp:202 | Descending scores and the same entries. |
| MixedDecoder.MixedInputDecoder.AsciiEdges | engine/src/input/mixed_input_decoder.cpp:80-121 | The ASCII edges at each position are one for each token there, with the kind and score of the token. |
| MixedDecoder.MixedInputDecoder.Replay | engine/src/input/mixed_input_decoder.cpp:123-130 | The reading that the keys complete in an empty buffer, with its candidates. |
| MixedDecoder.MixedInputDecoder.ToneEdge | engine/src/input/mixed_input_decoder.cpp:132-149 | An edge is added whenever the keys are a syllable closed by an explicit tone that has candidates, and no unsound one. |
| MixedDecoder.MixedInputDecoder.SpaceEdge | engine/src/input/mixed_input_decoder.cpp:152-170 | An edge to the end is added whenever the rest is a syllable closed by a space that has candidates. |
| MixedDecoder.MixedInputDecoder.AllEdges | engine/src/input/mixed_input_decoder.cpp:71-170 | All edges are sound with the scores of their kind, no token and no syllable is missed, and every position can be left by a single unit. |
| MixedDecoder.MixedInputDecoder.Extend | engine/src/input/mixed_input_decoder.cpp:209-222 | One entry behind one edge with its penalties and rendering. |
| MixedDecoder.MixedInputDecoder.BestPaths | engine/src/input/mixed_input_decoder.cpp:188-225 | The buckets keep the best of everything inserted and are closed under extension by an edge, up to what a full bucket outranks. |
| MixedDecoder.MixedInputDecoder.Collect | engine/src/input/mixed_input_decoder.cpp:227-262 | The raw path, then every kept path that renders differently, best first. |
| MixedDecoder.MixedInputDecoder.Decode | engine/src/input/mixed_input_decoder.cpp:63-263 | Every path tiles the input with sound edges, renders and scores as its segments do; the raw path is first, renderings are distinct, later scores descend, and no kept interpretation is left out; every segment of the other paths is one of the edges, so an ASCII segment is a token with its kind and score. |
| MixedDecoder.WholeSyllableIsOffered | engine/src/input/mixed_input_decoder.cpp:188-262 | A syllable over the whole input is offered with at least its score, unless it shows as the raw input or eight others score as much. |
| DecodedEdges.EveryToneHasItsEdge | engine/src/input/mixed_input_decoder.cpp:31-37 | Two to six keys that replay to a reading with another tone than the space have an edge with that reading and its candidates. |
| DecodedEdges.EverySpaceHasItsEdge | engine/src/input/mixed_input_decoder.cpp:160-180 | So have the keys that a closing space completes. |
| DecodedEdges.EdgesHaveTones | engine/src/input/mixed_input_decoder.cpp:120-180 | Conversely each syllable's edge is of one of these two kinds, with its score. |
| DecodedEdges.ReplayedExactly | engine/src/input/mixed_input_decoder.cpp:126-132 | Keys replay exactly when all but the last extend one syllable naturally and the last completes it. |
| DecodedEdges.AsciiScores | engine/src/input/mixed_input_decoder.cpp:15-30 | The kinds and scores of ASCII tokens. |
| Replay.ReplayFollows | engine/src/input/input_processor.cpp:1048-1075 | Typing a syllable into any settled composition succeeds exactly when it does in an empty buffer, and appends the same segments. |
| Replay.CompletedSyllable | engine/src/buffer/composition_buffer.cpp:139-172 | A syllable typed into an empty buffer ends in a finished reading that nobody chose. |
| MixedApply.PreviewIsResult | engine/src/input/input_processor.cpp:1048-1075 | At the end of a settled composition any decoded path applies; the composition then renders as before followed by what was shown, exactly when no code point 0 is shown. |
| Departures.NullCandidateIsDropped | engine/src/input/input_processor.cpp:1048-1075 | A table that gives the code point 0, and a path of keys whose preview is not what the composition shows. |
| MixedSession.ExpandCandidates | engine/src/input/mixed_input_decoder.cpp:265-313 | The raw input, then distinct texts of one closing path, the preferred or the one with the longest last syllable, every character until the page is full. |
| MixedSession.EntryIsResult | engine/src/input/input_processor.cpp:997-1075 | Selecting a displayed entry makes the composition exactly its text longer, when no code point 0 is involved. |
| MixedSession.InputSession.ApplyMixedPath | engine/src/input/input_processor.cpp:1048-1075 | Replaces the buffer when every segment applied, and otherwise leaves the whole session unchanged. |
| MixedSession.InputSession.SettlePendingPreview | engine/src/input/input_processor.cpp:1368-1378 | Settling at the end of a settled composition cannot fail, and the composition is then exactly the preedit that was shown, when no code point 0 is involved. |
| Prediction.PredictionState.Begin | engine/src/input/prediction_state.hpp:53-66 | Starts a request over the completed segments unless one is pending, which is marked to be repeated. |
| Prediction.PredictionState.Invalidate | engine/src/input/prediction_state.hpp:37-48 | A new generation with nothing pending. |
| Prediction.PredictionState.Finish | engine/src/input/prediction_state.hpp:88-92 | Nothing is pending any more; tells whether the composition changed meanwhile. |
| PredictionProtocol.StepKeeps | engine/src/host/engine.cpp:256-360 | Every edit, request, grant, answer, late or repeated delivery, close and restart keeps: a pending request was built from the present composition if its revision is the present one, request ids ascend, an answered request is in flight no more. |
| PredictionProtocol.PredictionIsFresh | engine/src/host/engine.cpp:302-360 | Over every run, whenever a prediction is applied its request was built from exactly the present segments, and no answer to it was accepted before. |
| PredictionProtocol.PaddingNamesIndices | engine/src/host/engine.cpp:448-473 | Entry i of the padding describes the segment that index i names. |
| PredictionProtocol.CompletedAscend | engine/src/buffer/composition_buffer.cpp:402-408 | The indices ascend and are exactly those of the complete segments. |
| PredictionProtocol.ApplyEach | engine/src/input/input_processor.cpp:1403-1413 | Each listed segment gets its own candidates, keeping explicit choices and pinned characters; no other segment changes. |
| PredictionReplies.RepliesDo | engine/src/host/engine.cpp:325-360 | Over every run: an answer that is not heard changes nothing; a prediction for the composition as it still is gives each listed segment its own merged candidates, any other heard answer its own fallback candidates; then the request has ended, and a dirty one is asked again for the composition as it then is. |
| PredictionReplies.OpensDo | engine/src/host/engine.cpp:271-300 | Over every run: a granted session sends the waiting request, a refused one gives the listed segments their fallback candidates, and a late answer changes neither. |
| PredictionReplies.RequestsDo | engine/src/host/engine.cpp:256-269 | Over every run: asking begins a request that describes exactly the complete segments, or only marks the pending one. |
| PredictionFate.MarkIsNotLost | engine/src/input/prediction_state.hpp:31-56 | Over every run: a pending request that was marked stays marked until it is dropped, or its answer leaves a request for the composition as it then is. |
| PredictionFate.InvalidatedIsDeaf | engine/src/input/prediction_state.hpp:36-40 | Over every run: once a context is invalidated, no answer to an earlier request of it is heard. |
| SessionSafety.StepKeeps | ime-unix-service/src/session/session_manager.cpp:61-353 | Every step of every thread keeps the invariant of the session manager, in which a session's mutex is held between steps by its cancelled prediction only, and nothing closed or destroyed comes back. |
| SessionSafety.EveryRunIsSafe | ime-unix-service/src/session/session_manager.cpp:84-171 | In every interleaving the running count is the number of admitted threads and within its limit, a flag is set exactly when one thread owns the session, accepted request ids strictly increase, and the table stays within its limit. |
| SessionCalls.LookupIsForTheOwner | ime-unix-service/src/session/session_manager.cpp:84-101 | Looking a session up succeeds exactly for its owner while the service is not shutting down, and otherwise changes nothing. |
| SessionCalls.CloseIsForTheOwner | ime-unix-service/src/session/session_manager.cpp:206-217 | Closing reaches the session exactly for its owner. |
| SessionCalls.OwnersStay | ime-unix-service/src/session/session_manager.cpp:61-82 | A session's owner never changes. |
| SessionCalls.OpenAddsOne | ime-unix-service/src/session/session_manager.cpp:61-82 | Opening adds one unused session of the caller when the table has room, and none otherwise. |
| SessionCalls.CallsAreOwners | ime-unix-service/src/session/session_manager.cpp:84-231 | Over every run: a thread that works on a session is in a call of the session's owner. |
| SessionCalls.ClaimsInOrder | ime-unix-service/src/session/session_manager.cpp:103-126 | A request is accepted exactly when the session is open and idle and its id exceeds every accepted one. |
| SessionCalls.LeavesTheTable | ime-unix-service/src/session/session_manager.cpp:206-353 | A session leaves the table only by an eviction, by the end of its close, or at the end of a shutdown. |
| SessionCalls.ChosenIsIdle | ime-unix-service/src/session/session_manager.cpp:315-353 | Only an open and idle session is chosen for eviction. |
| SessionCalls.ClosingMarks | ime-unix-service/src/session/session_manager.cpp:206-231 | Closing marks the session and nothing else, and its engine goes when nothing is in flight. |
| SessionSafety.RunEvolves | ime-unix-service/src/session/session_manager.cpp:103-231 | Closing and destruction are final, and a closing session accepts no further request. |
| SessionSafety.EngineIsDestroyedSafely | ime-unix-service/src/session/session_manager.cpp:206-231 | An engine is reset only while no thread is between claim and release of that session, and no thread ever owns it again. |
| SessionRelease.WaitingIsNeverReleased | ime-unix-service/src/session/session_manager.cpp:122-144 | Over every run: a prediction whose session starts closing before the check of line 135 is never admitted, and it never releases the session, because it locks the session's mutex at line 138 while it still holds it from line 134. |
| SessionRelease.ReleasedExactlyUnlessClosing | ime-unix-service/src/session/session_manager.cpp:122-171 | In every reachable state a prediction that claimed its session can still go on to release it exactly when it has passed the check of line 135 or its session is not closing. |
| SessionRelease.CheckDecides | ime-unix-service/src/session/session_manager.cpp:133-171 | A rechecked prediction can release its session, at any later moment of any run, exactly when the session was not closing at the check; the branch of lines 146-152 and admission both do. |
| SessionDeadlock.NothingDrains | ime-unix-service/src/session/session_manager.cpp:220-223 | Neither a close nor a shutdown can pass its wait for a session whose cancelled prediction never releases it. |
| SessionDeadlock.CloseNeverReturns | ime-unix-service/src/session/session_manager.cpp:206-231 | Over every run: a close of such a session, or a shutdown that lists it, waits for ever. |
| SessionDeadlock.ShutdownNeverClears | ime-unix-service/src/session/session_manager.cpp:271-294 | Over every run: no shutdown clears the table while such a session is in it. |
| SessionDeadlock.MutexIsNeverFreed | ime-unix-service/src/session/session_manager.cpp:315-353 | Over every run: while the cancelled call is blocked, a close, reap, eviction or shutdown that needs the session's mutex under mutex_ keeps mutex_ for good. |
| SessionDeadlock.QueuedPredictionBlocks | ime-unix-service/src/session/session_manager.cpp:133-144 | A run of three threads with one prediction at a time that reaches the blocked state: closing the session of a queued prediction. |
| SessionSafety.ShutdownDrainsTheTable | ime-unix-service/src/session/session_manager.cpp:271-294 | When a shutdown clears the table, every session still in it is destroyed and owned by nobody. |
| SessionEviction.Reap | ime-unix-service/src/session/session_manager.cpp:315-330 | Drops exactly the idle sessions unused for the timeout. |
| SessionEviction.EvictIdle | ime-unix-service/src/session/session_manager.cpp:332-353 | Drops idle sessions, least recently used first, until the target is met and no further; never a busy or closing one. |
| PhraseStore.BuildReadingKey | engine/src/phrase_override/phrase_override_store.cpp:188-207 | The trimmed readings joined by dashes; none for too few or many, an empty one, or one with a separator. |
| PhraseStore.KeyIsInjective | engine/src/phrase_override/phrase_override_store.cpp:188-207 | Equal keys mean equal trimmed readings. |
| PhraseSyntax.KeyExists | engine/src/phrase_override/phrase_override_store.cpp:188-207 | There is a key for two to eight readings with text and without dash, blank, tab or line end, and for no others. |
| PhraseSyntax.ValidExactly | engine/src/phrase_override/phrase_override_store.cpp:55-64 | A phrase is valid for as many readings as it has characters, two to eight, without blanks. |
| PhraseSyntax.WordsSplit | engine/src/phrase_override/phrase_override_store.cpp:17-53 | Readings are read whatever separators stand before, between and behind them. |
| PhraseStore.Split | engine/src/phrase_override/phrase_override_store.cpp:32-52 | The runs between separators, none when a run is not UTF-8 or there is none. |
| PhraseStore.Parse | engine/src/phrase_override/phrase_override_store.cpp:131-155 | A line is a phrase, blanks, and readings that have a key. |
| PhraseFile.SpaceIsACharacter | engine/src/phrase_override/phrase_override_store.cpp:16-28 | In UTF-8 the three bytes of the ideographic space occur only where that character is. |
| PhraseFile.SplitIsClean | engine/src/phrase_override/phrase_override_store.cpp:32-52 | No reading that splitting returns holds an ideographic space or a blank to trim. |
| PhraseFile.KeySplits | engine/src/phrase_override/phrase_override_store.cpp:32-52 | A key of readings without ideographic spaces splits into exactly those readings, trimmed. |
| PhraseFile.KeyShowsSpaces | engine/src/phrase_override/phrase_override_store.cpp:188-207 | The bytes of a key show whether a reading holds an ideographic space. |
| PhraseFile.ParseUndoesFormat | engine/src/phrase_override/phrase_override_store.cpp:127-155 | Parsing a printed entry recovers the phrase and the trimmed readings, under the same key. |
| PhraseFile.LoadedIsPlain | engine/src/phrase_override/phrase_override_store.cpp:80-89 | Whatever a line holds, what it loads is no comment and has no ideographic space in its key. |
| PhraseFile.LoadUndoesPrint | engine/src/phrase_override/phrase_override_store.cpp:68-92 | A printed entry is loaded back unchanged exactly when its phrase does not begin with `#` and no reading holds an ideographic space. |
| PhraseOverrides.LookupAfterStore | engine/src/phrase_override/phrase_override_store.cpp:94-109 | Storing a phrase changes the answer for exactly the readings it was stored for, up to trimmed blanks. |
| PhraseOverrides.LinesOfText | engine/src/phrase_override/phrase_override_store.cpp:80-81 | Reading lines undoes writing them. |
| PhraseOverrides.FileRoundTrip | engine/src/phrase_override/phrase_override_store.cpp:68-92 | Saving and loading restore the store exactly when no phrase is a comment and no key holds an ideographic space. |
| Departures.CommentPhraseIsLost | engine/src/phrase_override/phrase_override_store.cpp:68-92 | A valid phrase that begins with the comment sign is printed and not loaded back. |
| Departures.WideSpaceIsLost | engine/src/phrase_override/phrase_override_store.cpp:127-155 | A reading with an ideographic space has a key, and its printed line is not loaded back. |
| PhraseOverrides.PhraseOverrideStore.Load | engine/src/phrase_override/phrase_override_store.cpp:68-92 | Replaces the store by what the lines hold, empties it for a missing file, keeps it when the file cannot be read. |
| PhraseOverrides.PhraseOverrideStore.Add | engine/src/phrase_override/phrase_override_store.cpp:94-109 | Stores a valid entry; when it cannot be saved the store is exactly as before. |
| PhraseOverrides.PhraseOverrideStore.Replace | engine/src/phrase_override/phrase_override_store.cpp:111-125 | Replaces all entries or none. |
| PhraseOverrides.PhraseOverrideStore.Find | engine/src/phrase_override/phrase_override_store.cpp:166-172 | The phrase stored for the readings. |
| PhrasePinning.CheckPins | engine/src/input/input_processor.cpp:1449-1467 | Exactly the maximal pinned runs that no longer read as a stored phrase are released. |
| PhrasePinning.PinPhrases | engine/src/input/input_processor.cpp:1469-1503 | The matched ranges show their phrases, nothing else changes; pinning a match never fails. |
| PhrasePinning.ApplyPhraseOverrides | engine/src/input/input_processor.cpp:1435-1504 | One pass: the leftmost-longest ranges of the composition show their phrases, every other segment is only released from a stale pin. |
| PhrasePinning.RangesAreLeftmostLongest | engine/src/input/input_processor.cpp:1469-1503 | The matched ranges are in order and disjoint, each the longest stored phrase of 2 to 8 usable segments at its start, and none starts where no range lies. |
| PhrasePinning.LeftmostLongestIsUnique | engine/src/input/input_processor.cpp:1469-1471 | That description determines the ranges. |
| PhrasePinning.PhraseFillsRange | engine/src/input/input_processor.cpp:1488-1499 | A stored phrase has one code point for each reading it is found under. |
| PhrasePinning.ChoicesStay | engine/src/input/input_processor.cpp:1439-1447 | Explicit choices, literals and unfinished readings are never touched. |
| PhraseSettling.PassIdle | engine/src/input/input_processor.cpp:1435-1504 | A pass changes no segment exactly when the matched ranges show their phrases already and every other pin belongs to a run that reads as a stored phrase. |
| PhraseSettling.SecondPassIdle | engine/src/input/input_processor.cpp:1435-1504 | A second pass changes no segment exactly when the first left no pin outside the matched ranges in a run that reads as no stored phrase. |
| PhraseSettling.TwoPassesSettle | engine/src/input/input_processor.cpp:1435-1504 | Whatever the composition was, a third pass changes no segment. |
| Departures.LeftoverPinGoesLater | engine/src/input/input_processor.cpp:1435-1504 | A match over a part of an old pinned run leaves a pin that the next pass takes away. |
| PhrasePinning.RangeShowsPhrase | engine/src/input/input_processor.cpp:1495-1499 | A matched range renders exactly its stored phrase, unless the phrase holds a null character. |
| Departures.NullPhraseIsNotShown | engine/src/input/input_processor.cpp:1435-1504 | A well-formed store with a phrase that holds the code point 0, and a range pinned to it that does not show it. |
| TrainingSamples.AppendLiteralTail | engine/src/input/input_processor.cpp:217-229 | Adds what was typed literally behind the composition; no sample when the text does not start with it, holds a zero or is too long. |
| TrainingSamples.TrainingSample | engine/src/input/input_processor.cpp:231-256 | One entry per segment with its reading, character and choice, and the literal tail. |
| TrainingSamples.ChoosePath | engine/src/input/input_processor.cpp:269-273 | The first of the paths that explain the most of the committed text. |
| TrainingSamples.MixedTrainingSample | engine/src/input/input_processor.cpp:262-297 | The sample, with its literal tail, of the first path that explains the most of the committed text; none when no path explains any. |
| TrainingSamples.CompositionSampleAcceptable | engine/src/input/input_processor.cpp:231-256 | A sample of the composition spells the committed text, and passes every check of the service exactly when all characters are Unicode scalars. |
| TrainingSamples.PathSampleAcceptable | engine/src/input/input_processor.cpp:262-297 | Every sample of a decoded path spells the committed text and passes every check of the service. |
| SampleContents.CompositionTold | engine/src/input/input_processor.cpp:231-257 | When the composition makes a sample, and what each entry of it says. |
| SampleContents.PathTold | engine/src/input/input_processor.cpp:262-297 | When a decoded path makes a sample, and what it contains. |
| Departures.LoneHalfIsRefused | engine/src/buffer/composition_buffer.cpp:174-185 | A composition with a literal half of a surrogate pair has a sample that the service refuses. |
| CommitStaging.OperationKeeps | ime-unix-service/src/training/commit_store.cpp:207-251 | Every operation keeps: an accepted commit is in exactly one of staged, written, discarded and dropped; at most one commit per source is staged; each source's commits are written in order of acceptance; nothing is staged while recording is off; what was written since the last reset is in the database. |
| CommitStaging.FlushWritesElapsed | ime-unix-service/src/training/commit_store.cpp:239-251 | A flush without force writes exactly the commits whose window has elapsed. |
| CommitStaging.RecordSettlesOnlyItsSource | ime-unix-service/src/training/commit_store.cpp:212-219 | Recording writes the earlier commit of the same source and leaves every other window open. |
| CommitStaging.FirstRecordWins | ime-unix-service/src/training/commit_store.cpp:260-262 | A record in the database is never replaced; of a new event the first one written is stored. |
| CommitFates.EveryFate | ime-unix-service/src/training/commit_store.cpp:207-251 | Each operation writes, discards, drops or leaves every staged commit exactly as is due to it. |
| CommitFates.WithdrawalTakesFirst | ime-unix-service/src/training/commit_store.cpp:225-232 | Withdrawing takes the first staged commit of the event out, marks it, and touches nothing else. |
| CommitFates.RecordStages | ime-unix-service/src/training/commit_store.cpp:207-223 | A commit that is taken up is staged last with the time of the call; one that is not leaves no trace. |
| CommitFates.SwitchesDo | ime-unix-service/src/training/commit_store.cpp:280-384 | What turning recording on and off, setting the password and resetting do. |
| CommitStaging.DiscardedIsNeverWritten | ime-unix-service/src/training/commit_store.cpp:225-232 | Over every run a commit is at each moment in exactly one place, and a discarded one is never written. |
| CommitFates.WithdrawnIsNeverWritten | ime-unix-service/src/training/commit_store.cpp:225-251 | Over every run: a commit withdrawn while it is staged is never written. |
| CommitStores.Validate | ime-unix-service/src/training/commit_store.cpp:50-78 | Accepts exactly the commits whose entries are well formed and spell the answer, with at least one reading. |
| CommitStores.CommitStore.WriteLocked | ime-unix-service/src/training/commit_store.cpp:253-278 | Inserts a record unless its event is there, and tells which. |
| CommitStores.CommitStore.SettleSource | ime-unix-service/src/training/commit_store.cpp:214-219 | Erasing while iterating writes exactly the staged commits of the source, in order. |
| CommitStores.CommitStore.Record | ime-unix-service/src/training/commit_store.cpp:207-223 | Stages a valid commit while recording is on and fewer than 256 are staged; an unacceptable request is an error. |
| CommitStores.CommitStore.DiscardStaged | ime-unix-service/src/training/commit_store.cpp:225-232 | Takes out the first staged commit of the event, if there is one. |
| CommitStores.CommitStore.FlushStaged | ime-unix-service/src/training/commit_store.cpp:239-251 | Rebuilds the staged list without what is due, which is written; returns how many records are new. |
| CommitStores.CommitStore.SetRecordingEnabled | ime-unix-service/src/training/commit_store.cpp:362-369 | Turning recording off drops what is staged; turning it on needs a password. |
| CommitStores.CommitStore.ConfigurePassword | ime-unix-service/src/training/commit_store.cpp:280-287 | Refuses a second password; otherwise drops what is staged and turns recording on. |
| CommitStores.CommitStore.ResetConversationData | ime-unix-service/src/training/commit_store.cpp:371-384 | Drops what is staged, empties the database and forgets the password. |
| ServiceTransport.StepKeeps | engine/src/engine/service_transport.cpp:133-310 | Every step of callers, worker and controller keeps first-in first-out order, the accounting of every request and the single answer. |
| ServiceTransport.DrainFindsNothing | engine/src/engine/service_transport.cpp:300-309 | The drain after the worker's loop never finds a request. |
| ServiceTransport.StopLeavesNothing | engine/src/engine/service_transport.cpp:133-154 | When stop has joined the worker the queue is empty and every request taken on with a callback was answered exactly once. |
| ServiceTransport.InOrderAndOnce | engine/src/engine/service_transport.cpp:227-298 | Requests are completed in the order they were queued, none is answered twice, and at most 128 commits wait. |
| ServiceTransport.StoppingEnds | engine/src/engine/service_transport.cpp:133-154 | While stopping the worker always has a step that brings its exit nearer, and no caller puts it off. |
| ServiceTransport.DeliveredMatches | engine/src/engine/service_transport.cpp:286-291 | Every delivered answer matches its request; an answer that does not is replaced by an error. |
| TransportAnswers.AnswersAreTrue | engine/src/engine/service_transport.cpp:223-310 | Over every run: each answer is the service's own answer to that request, unchanged, or an error with the request's ids and the code of what went wrong. |
| TransportAnswers.FinishTells | engine/src/engine/service_transport.cpp:286-300 | A reply that echoes the request is delivered unchanged; a stop, a bad frame and a failure are errors 9, 3 and 8. |
| TransportAnswers.EnqueueTakesOn | engine/src/engine/service_transport.cpp:227-249 | A call is queued behind the others, refused while stopping, or given up when it is a commit and 128 calls wait. |
| Wire.GetNumberRoundTrip | engine/src/protocol/protocol.cpp:16-25 | A number written low byte first is read back, whatever follows. |
| Wire.TextRoundTrip | engine/src/protocol/protocol.cpp:39-43 | A valid UTF-16 text within its limit is read back. |
| Wire.Utf8RoundTrip | engine/src/protocol/protocol.cpp:34-38 | A valid UTF-8 text within its limit is read back. |
| Protocol.CountedRoundTrip | engine/src/protocol/protocol.cpp:133-136 | The plausibility check of a count never refuses a list that was written. |
| Protocol.PaddingRoundTrip | engine/src/protocol/protocol.cpp:137-159 | A padding entry is read back but for the half that is not sent. |
| Protocol.EntryConsumesTen | ime-unix-service/src/pipe/protocol.cpp:570-582 | Every commit entry takes at least the ten bytes that the client's early check counts on. |
| Frames.EntriesAgree | engine/src/protocol/protocol.cpp:317-329 | Where the client refuses a count early, the service runs out of bytes. |
| Frames.DecodersAgree | ime-unix-service/src/pipe/protocol.cpp:468-619 | Both implementations accept exactly the same frames, with the same results. |
| Frames.RoundTrip | engine/src/protocol/protocol.cpp:250-354 | Whatever one side encodes, either side decodes to the same message, but for the unused half of each padding entry. |
| FrameLayout.PredictionsHold | engine/src/protocol/protocol.cpp:250-354 | Requests and predictions have their ids and fields at fixed places, low byte first. |
| FrameLayout.StatusIs | engine/src/protocol/protocol.cpp:250-354 | The bytes of a status. |
| FrameLayout.ShortBodies | engine/src/protocol/protocol.cpp:250-354 | The bytes of the short messages, whole. |
| FrameLayout.CommitIs | engine/src/protocol/protocol.cpp:250-354 | The fields of a commit in order. |
| FrameLayout.SendableExactly | engine/src/protocol/protocol.cpp:250-354 | Which messages can be sent. |
| Frames.AcceptableCommitTravels | ime-unix-service/src/pipe/protocol.cpp:560-584 | A commit that the store accepts can always be encoded within a frame and arrives unchanged. |
| Readers.CheckUtf16 | engine/src/protocol/protocol.cpp:222-232 | Accepts exactly the texts that decode as UTF-16. |
| Readers.Reader.ReadNumber | engine/src/protocol/protocol.cpp:74-85 | Reads four or eight bytes by shifting, or fails when they are not there. |
| Readers.Reader.ReadUtf16 | engine/src/protocol/protocol.cpp:103-112 | Reads a counted text, refusing what is too long, cut off or not UTF-16. |
| Readers.Reader.ReadUtf8 | ime-unix-service/src/pipe/protocol.cpp:156-164 | Reads a counted UTF-8 text with the check of its side. |
| Readers.Reader.ReadPadding | engine/src/protocol/protocol.cpp:144-159 | Reads the counted padding entries. |
| Readers.Reader.ReadCandidates | engine/src/protocol/protocol.cpp:170-184 | Reads the lists of candidates. |
| Readers.Reader.ReadEntries | engine/src/protocol/protocol.cpp:317-329 | Reads the commit entries, with the early count check on the client only. |
| Codec.DecodeFrame | engine/src/protocol/protocol.cpp:301-354 | The reader decodes exactly the messages that the format defines, on either side. |
| Codec.EncodeFrame | ime-unix-service/src/pipe/protocol.cpp:359-466 | Appending field by field writes exactly the format, and refuses exactly what the checks refuse. |

## Left out

- Foreign calls and user interface: the accessibility provider, D-Bus, the fcitx5 and AppKit adapters, candidate paging,
  symbol menus and settings.
- `InputProcessor::process_impl` and `rerun_pending_decision`: key routing and preview heuristics. The preview is any path of a
  decoded result, the keys are any edits.
- Sockets, processes and files: sending and receiving is any outcome, a file is its bytes or a failure, saving succeeds or
  fails. Creating directories, permissions and spawning the service are not modelled.
- SQLite and encryption: the database is a map from event to commit and sealing is the identity. Statements do not fail,
  and no other process turns recording off.
- Writes and callbacks do not throw. When `u16_to_utf8` throws while a training sample is built, the source catches the
  exception neither there nor where the text is committed, so the commit itself is skipped; in the model there is no
  sample, and committing is not modelled.
- Global optimality of the decoder: penalties depend on the last kind and the Latin count, which deduplication by
  rendering forgets, so only closure under extension is claimed.
- MixedDecoder.MixedInputDecoder.Decode: requires nonempty input, because the source dereferences the path of the empty
  input, and its caller excludes that input.
- Wrap-around of revision counters, request ids and sizes: they are unbounded. Scores are real numbers instead of floating
  point, and sorting states descending scores and not the order of equal ones.
- TopK.SortByScore: does not fix the order of entries with equal scores, because the library sort does not.
- SessionRelease.ReleasedExactlyUnlessClosing: says that a prediction can still release its session, not that it ever
  does. A waiter may wake at any time in the model; in the source one wake-up is sent when a prediction finishes and a
  cancelled waiter can consume it, and `close_session` notifies without holding `prediction_mutex_`, so a waiter can miss
  that one too.
- Locking a `std::mutex` that the thread already holds is undefined behaviour. The model lets the thread either block or
  leave with the library's exception, which unlocks the mutex once; the theorems hold of both.
- SessionSafety.ShutdownDrainsTheTable: speaks of sessions still in the table. A session evicted between lookup and claim
  goes on running without being in it.
- The choice of the session that eviction drops is modelled apart from the threads (`SessionEviction`); in `SessionManager`
  an eviction drops any idle session. The status queries of the service are not modelled.
- Session ids drawn at random are assumed new: in `PredictionProtocol` a granted id differs from every id granted before, in
  `SessionManager` from every id in the table. An open request is answered at most once.
- PhraseSettling.TwoPassesSettle: speaks of the segments. A pass that releases pins and sets them again still raises the
  revision.
- ServiceTransport.StopLeavesNothing: calls that were refused while stopping are answered by their own callers and may
  still be running when stop returns; calls of stop and reconfigure do not overlap. The connection itself, the back-off
  after a failed spawn and the epoch are not modelled.
- Bit masks and shifts are written as ranges, products and remainders of the same values. A syllable inside a segment is
  stored by value, and a segment's methods take a copy of it as the source's do.
- The two encoders have the same checks and fields and are modelled once; the side decides which UTF-8 check and which
  count check is used.
- Ten-second windows of the client and the service race with message delays, so nothing is claimed across them.
