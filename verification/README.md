# A Dafny model of the streaming chat-to-speech core

The application streams a language model's reply. It cuts the reply into
sentences while it arrives and sends each sentence to a speech synthesiser.
The synthesised audio plays on a 3D avatar, and a small Python server
provides the synthesiser. This project models the logic that decides what
gets said, when, and with which model, and proves properties of it:

- **Segmenter** (`segmenter.dfy`): the read loop of the chat handler, one
  chunk at a time. It does three things:
  - it strips a leading `[tag]`, the lazy match `^\[(.*?)\]`;
  - it cuts at most one sentence with `^(.+[。．！？\n]|.{10,}[、,])`, then
    applies `trimStart` to the remainder;
  - it skips sentences made only of white space and brackets, and speaks
    `tag + " " + sentence`.

  The JavaScript regular-expression semantics is spelled out: the shortest
  tag, the greedy longest match inside the first line, and precedence of the
  first alternative. Characters are Unicode scalar values; they coincide
  with JavaScript's UTF-16 code units inside the Basic Multilingual Plane.
- **Chat** (`chat.dfy`): the transcript after one send, for every way the
  reply stream can behave. Also the edit handler of the settings screen.
- **SpeakScheduler** (`speak_scheduler.dfy`): the speaker closure as a
  timeline over a natural-number millisecond clock:
  - fetches are serialised and throttled 1000 ms apart;
  - playbacks are serialised behind both their own fetch and the previous
    playback;
  - a rejected `speak` blocks the pipeline for good;
  - `fetchAudio` is modelled in detail.
- **LocalAudio** (`local_audio.dfy`): `playLocalAudio`, plus the queue that
  orders completion callbacks but not playbacks.
- **TalkStyle** (`talk_style.dfy`): `reduceTalkStyle`.
- **TtsServer** (`tts_server.dfy`): the pure decisions of `main.py`:
  - `convert_boolean`;
  - model and vocoder path precedence;
  - query-before-header parameter lookup;
  - `style_wav_uri_to_dict`;
  - the MaryTTS `/locales`, `/voices` and `/process` text selection.
- **Scenarios** (`scenarios.dfy`): two worked timelines.

Oracles stand in for the things the model cannot compute. The speech
server's answer, the bytes of `intro.mp3`, download results, `os.path.isfile`,
`json.loads`, durations and call times are all parameters.

The model follows the code as written, including three behaviours a reader
might not expect:

- the ASCII `.`, `!` and `?` do not end a sentence;
- the white space removed by `trimStart` is lost from the transcript;
- the tag is never reset, so a skipped sentence keeps the tag in force, like
  any other.

## Model

| member | source | states |
|---|---|---|
| Segmenter.TagEnd | src/pages/index.tsx:147-151 | the leading tag closes at the first `]` on the first line: the result is a closing position with no earlier one, or there is none at all |
| Segmenter.LineLength | src/pages/index.tsx:154-156 | `.` cannot cross a line terminator: the result is the first line terminator's index, or the length |
| Segmenter.LastIn | src/pages/index.tsx:154-156 | the greedy alternatives pick the last qualifying terminator in range, and none exists after it |
| Segmenter.BoundariesWithinFirstLine | src/pages/index.tsx:154-156 | a hard or soft boundary is exactly a terminator of the right class within the first line (terminating newline included), soft ones at index 10 or later |
| Segmenter.SentenceEnd | src/pages/index.tsx:154-156 | the cut is the longest hard-terminated prefix if one exists, else the longest soft-terminated one of at least 11 characters; no result means no boundary of either kind |
| Segmenter.ChosenBoundaryUnique | src/pages/index.tsx:154-156 | the regular expression's choice of sentence end is unique |
| Segmenter.SkipWhitespace | src/pages/index.tsx:161-163 | the scan from a position passes only white space and stops at the end or at the first character that is not white space |
| Segmenter.TrimStart | src/pages/index.tsx:161-163 | the result is a suffix, everything dropped is white space, and the result does not start with white space |
| Segmenter.ExtractSentence | src/pages/index.tsx:154-163 | the sentence is a prefix ending at the chosen boundary; the buffer splits into sentence, discarded white space and remainder; no cut happens only when no boundary exists |
| Segmenter.ExtractSentenceTrims | src/pages/index.tsx:158-163 | the remainder after a cut is exactly `trimStart` of the text following the matched sentence |
| Segmenter.CutDecomposes | src/pages/index.tsx:154-163 | a cut buffer is the sentence, then the discarded white space, then the remainder, and the sentence ends at the boundary the regular expression chooses |
| Segmenter.Unpronounceable | src/pages/index.tsx:166-171 | the skip test: replacing the anchored class `^[\s<brackets>]+$` leaves nothing exactly when every character is white space or one of the listed brackets |
| Segmenter.UnpronounceableConcat | src/pages/index.tsx:166-171 | the anchored class matches a concatenation exactly when it matches both parts |
| Segmenter.SkippedSentenceEndsAtNewline | src/pages/index.tsx:165-173 | only a sentence ending in a newline can be skipped as unpronounceable, since no other terminator is white space or a bracket |
| Segmenter.TagRule | src/pages/index.tsx:147-151 | a leading tag becomes the tag and is sliced off; without one the previous tag and the buffer stay |
| Segmenter.TagShape | src/pages/index.tsx:147-151 | the tag afterwards is the old one or a well-formed tag that, followed by the stripped buffer, rebuilds the buffer |
| Segmenter.TagAfter | src/pages/index.tsx:147-151 | without a leading tag the previous tag stays; with one, the new tag is a well-formed tag that opens the buffer (which one is pinned down by `Segmenter.TagRule`) |
| Segmenter.LeadingTagIsTag | src/pages/index.tsx:147-148 | the text matched by the lazy tag pattern is `[`, then neither `]` nor a line terminator, then `]` |
| Segmenter.AfterTag | src/pages/index.tsx:149-150 | slicing the tag off leaves a suffix of the buffer (exactly the text after the tag, by `Segmenter.TagRule`) |
| Segmenter.Step | src/pages/index.tsx:136-189 | one chunk: at most one sentence is appended; something is spoken iff a pronounceable sentence was cut, and it is `tag + " " + sentence`; the log grows by exactly what is spoken; the tag becomes the shortest leading tag of the grown buffer when it opens with one, and stays otherwise, so it is never cleared |
| Segmenter.StepWithoutBoundary | src/pages/index.tsx:154-158 | no sentence is cut iff the tag-stripped buffer has no boundary, and then the buffer is just the stripped text and nothing is spoken |
| Segmenter.StepCutsChosenSentence | src/pages/index.tsx:158-163 | a cut sentence is the one the boundary rule chooses, and the buffer becomes the rest without its leading white space |
| Segmenter.StepCutIsExtracted | src/pages/index.tsx:147-163 | a sentence cut by one chunk is the match in the tag-stripped buffer, and the buffer becomes what the match leaves after `trimStart` |
| Segmenter.StepUnfold | src/pages/index.tsx:141-163 | one step's buffer and sentence list follow the cut of the tag-stripped buffer |
| Segmenter.Run | src/pages/index.tsx:136-190 | the read loop over a whole stream folds the chunks through one step each, so no more utterances are spoken than chunks arrived; its other properties are the `Run…` lemmas below |
| Segmenter.RunLogIsSpokenText | src/pages/index.tsx:175-180 | over a whole stream, `aiTextLog` is the in-order concatenation of every utterance spoken |
| Segmenter.RunAtMostOnePerChunk | src/pages/index.tsx:136-189 | over a whole stream, at most one utterance per chunk |
| Segmenter.StepSentencesGrow | src/pages/index.tsx:136-163 | one chunk appends at most one sentence to the recorded ones and leaves the earlier ones alone; a chunk that speaks appended exactly one |
| Segmenter.RunTagPersists | src/pages/index.tsx:132-151 | over a whole stream the tag ends as the initial one or a well-formed tag, and a non-empty initial tag is never cleared |
| Segmenter.RunTagNeverCleared | src/pages/index.tsx:147-151 | once the tag is set after some prefix of the stream, it is still set at the end: a later chunk may replace it but never clears it |
| Segmenter.StepSpokenShape | src/pages/index.tsx:165-175 | starting from an empty or well-formed tag, whatever one chunk speaks is a tag, a space and a pronounceable sentence |
| Segmenter.RunSpokenShape | src/pages/index.tsx:165-180 | every utterance of a stream is an empty or well-formed tag, a space, and a pronounceable sentence |
| Chat.SendChat | src/pages/index.tsx:92-204 | a null input changes nothing; otherwise the request is system prompt + log + user message; an unavailable stream keeps only the user message; a stream always appends one assistant entry holding the spoken utterances in order, even after a read error; processing ends false |
| Chat.SendChatSpeaksSegmenterOutput | src/pages/index.tsx:129-202 | the utterances of a send are exactly those of the segmenter run over the delivered chunks, and the assistant entry is its log; text still buffered at the end is dropped |
| Chat.ChangeChatLog | src/pages/index.tsx:63-73 | the length and every role stay; the target entry gets the new text; every other entry, and the whole log when the index is out of range, stays |
| TalkStyle.ReduceTalkStyle | src/utils/reduceTalkStyle.ts:5-11 | the result is always one of `talk`, `happy`, `sad`; those pass through unchanged, anything else becomes `talk` |
| TalkStyle.ReduceIdempotent | src/utils/reduceTalkStyle.ts:5-11 | reducing an already reduced style changes nothing |
| TalkStyle.ReduceIsCaseSensitive | src/utils/reduceTalkStyle.ts:5-11 | the comparison is exact: `Happy`, `SAD` and the empty string all become `talk` |
| SpeakScheduler.FetchAudio | src/features/messages/speakCharacter.ts:161-181 | success iff the server answered with an audio URL and `intro.mp3` loaded, and then the bytes are those of `intro.mp3`; a missing URL is the "Something went wrong" error |
| SpeakScheduler.FetchAudioIgnoresUrl | src/features/messages/speakCharacter.ts:172-180 | the returned bytes do not depend on which audio URL the server returned, only on whether it returned one |
| SpeakScheduler.FetchOrNull | src/features/messages/speakCharacter.ts:27-29 | a failed fetch becomes null; a successful one yields the fetched bytes |
| SpeakScheduler.Advance | src/features/messages/speakCharacter.ts:19-46 | one call: the fetch starts at the latest of the call, the previous fetch and 1000 ms after `lastTime`, lasts its fetch time and stamps `lastTime` at its end; after a rejection the playback is blocked and the chain stays rejected; otherwise the playback starts when both its fetch and the previous playback settled, and the chain rejects iff this `speak` rejected |
| SpeakScheduler.Run | src/features/messages/speakCharacter.ts:7-47 | one slot per call, in call order, produced by one closure whose state carries over; its properties are the lemmas below |
| SpeakScheduler.Timeline | src/features/messages/speakCharacter.ts:7-47 | the slots of a run of calls, one per call; see `SpeakScheduler.FetchStartsAsEarlyAsAllowed`, `PlaybackPipeline`, `RejectionStopsPlayback` and `SlotAudio` |
| SpeakScheduler.AdvanceStep | src/features/messages/speakCharacter.ts:19-46 | one call: its fetch starts at the later of the call and 1000 ms after the last fetch ended, and that end becomes the throttle stamp; the playback chain rejects iff it had rejected or this `speak` rejected; otherwise this playback settled by the time the chain resolves |
| SpeakScheduler.TimelinePrefix | src/features/messages/speakCharacter.ts:7-47 | a later call never changes the slot of an earlier one |
| SpeakScheduler.RunSummarises | src/features/messages/speakCharacter.ts:7-47 | the closure state after a run records the last fetch end and whether any `speak` rejected, and, while none has, bounds every playback end |
| SpeakScheduler.RunClock | src/features/messages/speakCharacter.ts:19-32 | after a run, `lastTime` and the fetch chain both stand at the end of the last fetch, which no earlier fetch ended after |
| SpeakScheduler.RunPoison | src/features/messages/speakCharacter.ts:35-46 | the playback chain has rejected iff some `speak` rejected; until then every playback settled by the time the chain resolved |
| SpeakScheduler.RunPlayDoneIsLast | src/features/messages/speakCharacter.ts:35-46 | while no `speak` has rejected, `prevSpeakPromise` resolves exactly when the last call's playback settles |
| SpeakScheduler.FetchFollowsCall | src/features/messages/speakCharacter.ts:19-32 | every fetch starts no earlier than its call and lasts its fetch time |
| SpeakScheduler.FetchesSpaced | src/features/messages/speakCharacter.ts:19-34 | fetches run in call order, one at a time, and every fetch starts at least 1000 ms after every earlier fetch ended |
| SpeakScheduler.FetchStartsAsEarlyAsAllowed | src/features/messages/speakCharacter.ts:19-30 | each fetch starts exactly at the later of its call and 1000 ms after the previous fetch ended (time 0 for the first) |
| SpeakScheduler.FetchStartAt | src/features/messages/speakCharacter.ts:19-30 | the same for one slot: its fetch starts at the later of its call and 1000 ms after the previous fetch ended |
| SpeakScheduler.FirstFetchDoesNotWait | src/features/messages/speakCharacter.ts:8-23 | with a clock past 1000 ms the first fetch is not delayed |
| SpeakScheduler.PlaybackPipeline | src/features/messages/speakCharacter.ts:35-43 | a playback starts after its own fetch ended and after every earlier playback ended |
| SpeakScheduler.PlaybackAfterFetch | src/features/messages/speakCharacter.ts:35-43 | a settled playback starts no earlier than its own fetch ended, and does not end before it starts |
| SpeakScheduler.PlaybackOrdered | src/features/messages/speakCharacter.ts:35-43 | of two settled playbacks the earlier call's ends before the later call's starts |
| SpeakScheduler.RejectionStopsPlayback | src/features/messages/speakCharacter.ts:35-46 | after a rejected `speak` every later playback is blocked, and a playback is blocked only because an earlier one rejected |
| SpeakScheduler.BlockedAfterRejection | src/features/messages/speakCharacter.ts:35-46 | every slot after one whose `speak` rejected is blocked |
| SpeakScheduler.BlockedCause | src/features/messages/speakCharacter.ts:35-46 | a blocked slot has an earlier slot whose `speak` rejected, and the lemma names it |
| SpeakScheduler.SlotAudio | src/features/messages/speakCharacter.ts:35-43 | each slot plays its own fetch result; the viewer speaks iff there is audio and a loaded model; otherwise the slot settles at once and still fires both callbacks |
| SpeakScheduler.SlotAudioAt | src/features/messages/speakCharacter.ts:27-43 | the same for one slot: it plays its own fetch result, the viewer speaks iff there is audio and a loaded model, and otherwise it settles at once and fulfils |
| LocalAudio.PlayLocalAudio | src/features/messages/speakCharacter.ts:120-155 | fulfils iff the file loaded and `speak` did not reject; `onStart` is called iff the file loaded, as the first effect; the audio is spoken iff loaded with a model; `onComplete` is the last and only completion on every path |
| LocalAudio.Enqueue | src/features/messages/speakCharacter.ts:96-116 | one queued call: the playback starts at the call with `onStart` but no `onComplete`; the chain rejects iff it had rejected or this playback rejected; otherwise the caller's `onComplete` fires at the later of this settlement and the previous link |
| LocalAudio.RunQueue | src/features/messages/speakCharacter.ts:96-116 | one queue entry per call, with the chain the calls leave behind; its properties are `LocalAudio.ChainInvariant` and the queue lemmas |
| LocalAudio.QueueLocalAudio | src/features/messages/speakCharacter.ts:96-116 | the fate of every queued call, one per call, in call order; see `LocalAudio.QueuePlaysAtOnce`, `QueueCompletesOnlyAfterSuccesses` and `QueueCompletionsInOrder` |
| LocalAudio.ChainInvariant | src/features/messages/speakCharacter.ts:96-116 | the queue's promise chain has rejected iff some playback rejected; otherwise every completion and settlement lies at or before its resolution time |
| LocalAudio.QueuePlaysAtOnce | src/features/messages/speakCharacter.ts:107-109 | each queued playback starts at its own call, so playbacks overlap; it gets `onStart` but never an `onComplete` of its own |
| LocalAudio.QueueCompletesOnlyAfterSuccesses | src/features/messages/speakCharacter.ts:107-112 | the caller's `onComplete` of call i fires iff every playback up to and including i fulfilled |
| LocalAudio.QueueCompletionsInOrder | src/features/messages/speakCharacter.ts:107-112 | a completion fires only after every playback up to it settled, and completions fire in call order |
| TtsServer.ConvertBoolean | main.py:21-22 | true exactly for `true`, `1`, `yes` in any mix of letter case |
| TtsServer.ResolvePaths | main.py:62-99 | `--list_models` exits; the model is downloaded iff a name is given and the model path is falsy; a model path that is present, even empty, wins, together with its config and speakers file; the model's default vocoder fills in only when no vocoder name was given; the vocoder is downloaded iff a name is in effect and the vocoder path is falsy; a present vocoder path wins |
| TtsServer.EmptyModelPathDownloadsThenOverrides | main.py:84-95 | an empty `--model_path` still triggers the download, then replaces the downloaded path with the empty one |
| TtsServer.StyleWavUriToDict | main.py:152-165 | a falsy reference gives no style; an existing `.wav` file is used as a path; anything else is decoded as JSON tokens, and a decoding failure is an error |
| TtsServer.StyleWavDecodesOnlyJson | main.py:160-162 | `json.loads` is never consulted for a falsy reference or an existing `.wav` file: any two decoders give the same answer there |
| TtsServer.StyleWavJsonOnlyAtReference | main.py:163-164 | otherwise only the decoder's answer on the reference itself matters, and a reference that decodes never fails |
| TtsServer.TtsParameters | main.py:210-234 | each parameter comes from the query when present, even when empty, else from the header of the same meaning, else is empty; a style decoding failure fails the request |
| TtsServer.GetOrEmpty | main.py:219-232 | `get(key, "")` on the headers (and on the form of `/process`): the stored value when the key is present, else the empty string |
| TtsServer.TtsParametersProvenance | main.py:218-232 | on success each of `text`, `speaker-id` and `language-id` is the query value when given, else the header of that name, else empty; a style file path and a decoded style come from the query or the `style-wav` header the same way |
| TtsServer.TtsParametersQueryWins | main.py:218-232 | a parameter given in the query makes its header irrelevant; with all four given, the headers do not matter at all |
| TtsServer.TtsParametersReadsFourHeaders | main.py:218-232 | two header maps that agree on `text`, `speaker-id`, `language-id` and `style-wav` give the same result: no other header is read |
| TtsServer.QueryShadowsHeader | main.py:219-221 | an empty query text hides a non-empty `text` header, which is used only when the query has no text |
| TtsServer.Split | main.py:253 | `str.split` on a character: at least one piece, the pieces joined by the separator give the input back, and no piece holds the separator |
| TtsServer.SplitJoin | main.py:253 | splitting a join of separator-free pieces gives the pieces back, so `Split` and `Join` are inverse |
| TtsServer.Join | main.py:253 | the inverse of `str.split` on separator-free pieces (`TtsServer.SplitJoin`); the text opens with the first piece, followed by the separator when more pieces come |
| TtsServer.ModelDetails | main.py:252-255 | without a model name the default details; with one, separator-free segments that join back to the name |
| TtsServer.Locales | main.py:248-257 | without a model name the answer is `en`; with one it is the second `/`-separated segment, and a name with no `/` fails with an index error |
| TtsServer.Voices | main.py:259-271 | without a model name the answer is `default en u` plus a newline; with one it is the fourth segment, the second and `u`, and fewer than four segments fail with an index error |
| TtsServer.DefaultModelSplit | main.py:33-35 | the default model name `tts_models/en/ljspeech/tacotron2-DDC` splits into its four segments |
| TtsServer.DefaultModelEndpoints | main.py:248-271 | with the default model name `/locales` answers `en` and `/voices` answers `tacotron2-DDC en u\n` (the voice line with its trailing newline) |
| TtsServer.ProcessText | main.py:273-292 | a non-empty `INPUT_TEXT` query wins; a GET has no other source; on a POST a non-empty form field comes next, then the first body value when the body parses and has one, else the empty text |
| TtsServer.ProcessTextProvenance | main.py:278-292 | the text is empty or comes from one of its sources: the query parameter, the form field on a POST, or the first decoded body value on a POST |
| TtsServer.ProcessTextGetIgnoresBody | main.py:278-280 | a GET reads neither the form nor the body |
| Scenarios.FetchOverlapsPlayback | src/features/messages/speakCharacter.ts:19-43 | two calls 100 ms apart: the second fetch waits for the throttle, ends while the first utterance plays, and its playback starts as the first ends |
| Scenarios.LocalPlaybacksOverlap | src/features/messages/speakCharacter.ts:96-116 | two queued local files play at the same time, and the shorter second one completes only when the first ends |

## Left out

- Segmenter.SentenceEnd: a character outside the Basic Multilingual Plane (an emoji, say) is one Dafny `char` and counts once toward `.{10,}`, where JavaScript counts its two UTF-16 code units; five such characters followed by `,` are cut as a sentence by the code but not by the model. Dafny's `char` cannot hold a lone surrogate, so code units are not modelled. No Unicode normalisation is modelled either.
- The `setAssistantMessage` display update, `console` logging, `textsToScreenplay` and the React state setters are not modelled; the model returns the values they would receive.
- Segmenter.Step: the screenplay built from each utterance, and the `onStart` logging callback passed with it, are not modelled; the utterance string is.
- The network (`getChatResponseStream`, `synthesizeVoiceApi`, `fetch("intro.mp3")`, local file loads), `Date.now()`, `wait` and `viewer.model.speak` are oracles: outcomes and durations are parameters, and `wait(d)` lasts exactly `d`.
- Chat.SendChat: the stream's chunks are given up front, so a reply that never ends is not modelled. A read error counts as the end of the delivered chunks, and the rest of the turn does not depend on it.
- SpeakScheduler: callbacks never throw. A promise that never settles is not modelled. Whether `viewer.model` is loaded is sampled once per playback.
- `createSecondSpeakCharacter` is not exported and never used. It repeats the speaker closure and is not modelled separately.
- LocalAudio.Enqueue: the caller's `onStart` is taken to be given; its absence only removes the `StartCalled` effect.
- LocalAudio: a rejected load and a not-ok response lead to the same outcome, and the error message is not modelled.
- TtsServer: `Synthesizer` loading, synthesis, WAV encoding, the HTML pages, `/details`, the server lock, `uvicorn` start-up, and argparse parsing other than the converted booleans are not modelled.
- TtsServer.ConvertBoolean: lower-casing is modelled for ASCII letters only; Python's `str.lower` also folds other letters (U+0130 becomes two characters), and that is not modelled.
- TtsServer.TtsParameters: header lookup is case-insensitive in the server; the model's header map is keyed by the lower-case name.
- TtsServer.ProcessText: the form field is taken to be a string; an uploaded file in that field is not modelled.
- TalkStyle.ReduceTalkStyle is exact; its caller in the synthesis client is outside this model.
