# Narration: a verified model of the dictation and narrative core

Narration is an iOS app for home-health clinicians. A visit is a fixed list of seven questions.
The clinician answers each one by typing or by dictation. The app then joins the answers into
one narrative paragraph. This project models the logic at the core of that app in Dafny and
proves properties of it:

- **The chunked-recording controller** of `SpeechRecognitionService` (`speech_recognition.dfy`,
  class `SpeechRecognition.Service`). It covers:
  - starting and stopping recording;
  - rotating chunk files when the microphone goes quiet, driven by a 0.1 s meter poll and a 4 s
    one-shot countdown;
  - numbering the chunks;
  - handing each finished chunk to `processChunk` exactly once;
  - the decision `processChunk` makes for a chunk: discard it, stop for lack of an engine, or
    transcribe, delete and perhaps insert.

  The recorder, the audio session, the file system, the clock, the timers and the WhisperKit
  engine are outside the model. What the controller learns from them arrives as parameters:
  - whether the session activated and whether the recorder was created;
  - the meter's average power, compared against -30 dB;
  - the current time;
  - what the file system says about the chunk file;
  - the engine's answer, which throws or returns texts.

  A timer firing is a call of `TimerFired`.
- **The transcript filter** `filterInaudibleContent` (`transcript_filter.dfy`). It trims the
  text, rejects whole-transcript noise markers, removes the eighteen bracketed annotation
  patterns in order, collapses white space, and rejects results under three characters. The
  regular expressions are a literal-plus-lazy-wildcard fragment of ICU regular expressions
  (`artifact_pattern.dfy`). The matcher follows the backtracking engine's order and is proved
  sound and complete against a declarative definition of a match, and its match is the
  shortest one at its position. `replacingOccurrences`
  removes leftmost matches, left to right.
- **The visit session** `VisitSession` (`visit_session.dfy`):
  - bounded navigation;
  - clearing the session;
  - the progress fraction;
  - the all-answered test;
  - the `m:ss` time format, with Swift's truncating `/` and `%`.
- **The answer-insertion rule** of `NarrativeView` (`narrative_view.dfy`). This is the callback
  that adds dictated text to the current answer. The separator is chosen from the answer's last
  character. The file also models the `hasAnyResponses` test that enables the final button, and
  how the generated narrative is stored in the session.
- **Narrative concatenation** of `NarrativeGenerationService` (`narrative_generation.dfy`):
  - trim the responses;
  - drop the blank ones;
  - strip `.`, `!` and `?` from both ends of each;
  - join them with `". "` and close with `"."`.

Shared string helpers are in `text.dfy`:
- white space is the Unicode White_Space set, which is both Foundation's
  `.whitespacesAndNewlines` and the regex class `\s`;
- trimming;
- ASCII lower-casing.

`wrappers.dfy` holds an `Option` type.

### Behaviour of the code worth knowing

- **The filter is not idempotent.** The bracket patterns run once, in sequence. Removing the
  inner `[music]` of `[mu[music]sic]` leaves a new `[music]`. The filter keeps that result, and
  a second run rejects it (`TranscriptFilter.FilterIsNotIdempotent`).
- **`clearText` only resets the text and the chunk counter.** It cancels no silence timer.
  `Service.ClearText` may modify nothing else.
- **A pending silence countdown cannot be cancelled by speech.** When `checkForSilence` starts
  the 4 s countdown, it invalidates the 0.1 s poll and replaces it
  (`SpeechRecognitionService.swift:173-174`). From then on nothing calls `checkForSilence`
  until the countdown has fired and polling restarts. The branch that is meant to cancel a
  pending countdown on speech (lines 180-185) is therefore never reached from a timer.
  `Service.TimerFired` states this. A valid countdown always ends the chunk, whatever the
  meter says. A poll only ever keeps the timer or starts the countdown.
- **A failed chunk rotation leaves recording on with no recorder.** When `handleSilenceTimeout`
  cannot create the next recorder, it does not stop recording (lines 196-201). The spent
  countdown remains the only timer, and nothing else happens until `stopRecording`
  (`Service.HandleSilenceTimeout`, `Service.TimerFired`).
- **A chunk file is not always deleted.** When the engine has not loaded, `processChunk`
  returns before the deletion at line 250, so the file stays. A missing file is also left
  alone (`SpeechRecognition.ChunkOutcomeOf`, `ChunkOutcome.Deletes`).
- **`stopRecording` does not wait for the last chunk.** The last chunk goes to a detached task
  and stop returns at once. The model records the hand-off (`submitted`), not its completion.
- **The fallback message is ambiguous.** A single response reading exactly
  `No responses provided.` yields the same narrative as no responses at all
  (`NarrativeGeneration.FallbackIsAmbiguous`).
- **No streaming re-transcription, queue or session token.** The code has no streaming
  re-transcription, no single-flight queue and no session token, so none are modelled.

## Model

| member | source | states |
|---|---|---|
| Text.Trim | Narration/Services/SpeechRecognitionService.swift:260 | the result has no white space at either end and is empty exactly when the input is all white space |
| Text.TrimInfix | Narration/Services/SpeechRecognitionService.swift:260 | the trim is the infix of the input that starts right after its leading white space and is followed only by white space |
| Text.TrimOfTrimmed | Narration/Services/SpeechRecognitionService.swift:322 | trimming text without white space at its ends leaves it unchanged |
| Text.TrimIdempotent | Narration/Services/SpeechRecognitionService.swift:322 | trimming twice is trimming once, so the re-trim after the bracket pass is harmless on clean text |
| Text.Lower | Narration/Services/SpeechRecognitionService.swift:261 | lower-casing keeps the length, leaves no ASCII capital, turns each capital into its small letter and keeps every other character |
| ArtifactPattern.MatchFrom | Narration/Services/SpeechRecognitionService.swift:292-311 | a match found by the backtracking order ends inside the text, and a bracket pattern's match is never empty |
| ArtifactPattern.MatchFromSound | Narration/Services/SpeechRecognitionService.swift:292-311 | every match the engine order finds satisfies the declarative meaning of the pattern (literals case-insensitive, `.*?` spanning no line terminator) |
| ArtifactPattern.MatchFromComplete | Narration/Services/SpeechRecognitionService.swift:292-311 | wherever a declarative match starts, the engine order finds a match at that position |
| ArtifactPattern.MatchFromLeast | Narration/Services/SpeechRecognitionService.swift:292-311 | a successful search from a position ends no later than any declarative match that starts at or after it |
| ArtifactPattern.MatchFromShortest | Narration/Services/SpeechRecognitionService.swift:292-311 | whenever a declarative match runs from i to e, the engine finds a match at i that ends no later than e: with soundness, the lazy `.*?` yields the shortest match |
| ArtifactPattern.FindFrom | Narration/Services/SpeechRecognitionService.swift:313-318 | the reported match is the leftmost one: no earlier position matches, and no position matches when none is reported |
| ArtifactPattern.RemoveAll | Narration/Services/SpeechRecognitionService.swift:313-318 | replacing every match with "" never lengthens the text |
| ArtifactPattern.RemoveAllNoMatch | Narration/Services/SpeechRecognitionService.swift:313-318 | text the pattern matches nowhere is left unchanged |
| ArtifactPattern.RemoveAllLeftmost | Narration/Services/SpeechRecognitionService.swift:313-318 | at the leftmost match, the text before it is kept, the match itself (non-empty) is deleted and the search resumes after it |
| ArtifactPattern.AbsentLiteralNeverMatches | Narration/Services/SpeechRecognitionService.swift:292-311 | a pattern requiring a letter that occurs nowhere in the text (ignoring case) matches at no position |
| ArtifactPattern.RemoveAllAbsent | Narration/Services/SpeechRecognitionService.swift:313-318 | such a pattern's replacement leaves the text unchanged |
| TranscriptFilter.RemoveArtifacts | Narration/Services/SpeechRecognitionService.swift:313-319 | running the pattern replacements one after another never lengthens the text |
| TranscriptFilter.RemoveArtifactsUnchanged | Narration/Services/SpeechRecognitionService.swift:313-319 | if each pattern alone leaves the text unchanged, the whole sequence does |
| TranscriptFilter.CollapseWhitespace | Narration/Services/SpeechRecognitionService.swift:323 | after `\s+` becomes " ": empty exactly for empty input, the same white-space status at the start, and the same last character when that is not white space |
| TranscriptFilter.CollapseIsSingleSpaced | Narration/Services/SpeechRecognitionService.swift:323 | after collapsing, every white space is a plain space and no two white spaces are adjacent |
| TranscriptFilter.CollapseAppend | Narration/Services/SpeechRecognitionService.swift:323 | collapsing text split just after a character that is not white space is collapsing each part |
| TranscriptFilter.CollapseRun | Narration/Services/SpeechRecognitionService.swift:323 | one maximal run of white space between characters that are not white space (or the ends) becomes exactly one space, and the text on either side is collapsed on its own |
| TranscriptFilter.CollapseSingleSpaced | Narration/Services/SpeechRecognitionService.swift:323 | text whose white space is already single spaces is unchanged by collapsing |
| TranscriptFilter.CollapseKeepsText | Narration/Services/SpeechRecognitionService.swift:323 | collapsing keeps every non-white-space character, in order, and adds none |
| TranscriptFilter.NonWhitespaceTrim | Narration/Services/SpeechRecognitionService.swift:322 | trimming keeps every character that is not white space, in order |
| TranscriptFilter.CollapseWithoutWhitespace | Narration/Services/SpeechRecognitionService.swift:323 | text without white space is unchanged by collapsing |
| TranscriptFilter.CollapseTrimmedIsNormalized | Narration/Services/SpeechRecognitionService.swift:322-323 | trimming then collapsing gives text whose only white space is single spaces between other characters |
| TranscriptFilter.CleanUp | Narration/Services/SpeechRecognitionService.swift:313-323 | bracket removal, re-trim and collapse always yield normalized text holding exactly the non-white-space characters the bracket pass left, in order |
| TranscriptFilter.FilterInaudibleContent | Narration/Services/SpeechRecognitionService.swift:259-331 | the result is "" or at least 3 characters of normalized text; it is "" when the trimmed, lower-cased input is in the exact reject list and when the clean-up of a non-marker is shorter than 3; a non-empty result holds exactly the non-white-space characters the bracket pass leaves in the trimmed input |
| TranscriptFilter.FilterPassesCleanText | Narration/Services/SpeechRecognitionService.swift:259-331 | normalized text of at least 3 characters that is no marker and that the bracket pass leaves alone comes out of the filter unchanged |
| TranscriptFilter.NestedIsNoMarker | Narration/Services/SpeechRecognitionService.swift:264-289 | `[mu[music]sic]` is not in the exact reject list |
| TranscriptFilter.FirstMatchIsInner | Narration/Services/SpeechRecognitionService.swift:293 | the leftmost match of `\[music.*?\]` in `[mu[music]sic]` is the inner `[music]`, at positions 3 to 10 |
| TranscriptFilter.FirstPassFormsMarker | Narration/Services/SpeechRecognitionService.swift:313-318 | the first pattern's replacement turns `[mu[music]sic]` into `[music]` |
| TranscriptFilter.KeepsMarker | Narration/Services/SpeechRecognitionService.swift:294-310 | a pattern with a literal absent from `[music]` leaves `[music]` unchanged |
| TranscriptFilter.SquarePassesKeepMarker | Narration/Services/SpeechRecognitionService.swift:294-310 | each later square-bracket pattern leaves `[music]` unchanged |
| TranscriptFilter.RoundPassesKeepMarker | Narration/Services/SpeechRecognitionService.swift:298-307 | each parenthesis pattern leaves `[music]` unchanged |
| TranscriptFilter.ArtifactPassesOnNested | Narration/Services/SpeechRecognitionService.swift:292-319 | the whole bracket pass turns `[mu[music]sic]` into `[music]` |
| TranscriptFilter.CleanUpOnNested | Narration/Services/SpeechRecognitionService.swift:313-323 | the clean-up of `[mu[music]sic]` is `[music]` |
| TranscriptFilter.FilterOnNested | Narration/Services/SpeechRecognitionService.swift:259-331 | the filter passes `[mu[music]sic]` through as `[music]` |
| TranscriptFilter.MusicIsMarker | Narration/Services/SpeechRecognitionService.swift:264-289 | `[music]` is in the exact reject list |
| TranscriptFilter.BlankAudioIsMarker | Narration/Services/SpeechRecognitionService.swift:264-289 | `[BLANK_AUDIO]` lower-cases to the reject entry `[blank_audio]` |
| TranscriptFilter.FilterOnMarker | Narration/Services/SpeechRecognitionService.swift:285-289 | the filter rejects `[music]` |
| TranscriptFilter.FilterIsNotIdempotent | Narration/Services/SpeechRecognitionService.swift:259-331 | filtering `[mu[music]sic]` gives `[music]`, and filtering that again gives "" |
| SpeechRecognition.ChunkOutcomeOf | Narration/Services/SpeechRecognitionService.swift:205-251 | a missing file is left alone; a file of at most 1000 bytes (or of unknown size) is discarded untranscribed; without an engine the file is kept; otherwise the engine is asked, and the file is deleted whether it throws or answers; the raw text is the trimmed first result; text is inserted exactly when the filter leaves something, and it is the filtered text |
| SpeechRecognition.InsertedTextIsClean | Narration/Services/SpeechRecognitionService.swift:233-243 | text handed to the insertion callback has at least 3 characters and is normalized |
| SpeechRecognition.BlankAudioIsNeverInserted | Narration/Services/SpeechRecognitionService.swift:230-243 | a large chunk that the engine hears as `[BLANK_AUDIO]` is transcribed and deleted, and nothing is inserted |
| SpeechRecognition.Service.constructor | Narration/Services/SpeechRecognitionService.swift:19-38 | a new service is not recording, has no recorder, timer or chunk, its counter is 0 and its engine is not yet loaded |
| SpeechRecognition.Service.InitializeWhisperKit | Narration/Services/SpeechRecognitionService.swift:41-60 | readiness is the load result; a successful load installs the engine, a failed one leaves the engine as it was |
| SpeechRecognition.Service.StartNewChunk | Narration/Services/SpeechRecognitionService.swift:118-140 | the chunk is named after the old counter and the time, the counter goes up by exactly 1 even when the recorder cannot be created, and a recorder is live exactly when it was created |
| SpeechRecognition.Service.FinishCurrentChunk | Narration/Services/SpeechRecognitionService.swift:142-151 | with a live recorder and a chunk, the recorder is dropped and the chunk submitted once; otherwise nothing changes, so a second call submits nothing |
| SpeechRecognition.Service.StartSilenceMonitoring | Narration/Services/SpeechRecognitionService.swift:154-161 | any previous timer is replaced by a fresh 0.1 s poll |
| SpeechRecognition.Service.StartRecording | Narration/Services/SpeechRecognitionService.swift:71-96 | while recording nothing changes; otherwise an audio-session failure reports the error and starts no chunk, a recorder failure reports the error after the counter has advanced, and success starts chunk number old-counter, clears the text and starts polling; a failure leaves recording off and the text and timer as they were; the engine, its readiness, the processing flag and the submitted chunks are never touched |
| SpeechRecognition.Service.StopRecording | Narration/Services/SpeechRecognitionService.swift:98-115 | when not recording nothing changes; otherwise the live chunk, if any, is submitted and recording ends with no recorder and no timer |
| SpeechRecognition.Service.CheckForSilence | Narration/Services/SpeechRecognitionService.swift:163-187 | without a recorder or while not recording the timer is kept; a reading below -30 starts the 4 s countdown unless one is pending; a reading at or above -30 cancels a pending countdown back to polling and otherwise keeps the timer |
| SpeechRecognition.Service.HandleSilenceTimeout | Narration/Services/SpeechRecognitionService.swift:189-202 | when not recording nothing changes; otherwise the live chunk is submitted, the next one is numbered and started, and polling resumes only if its recorder was created |
| SpeechRecognition.Service.TimerFired | Narration/Services/SpeechRecognitionService.swift:156-202 | an invalidated timer does nothing; a poll submits nothing, keeps the chunk, counter and recorder and only keeps the timer or starts the countdown; a valid countdown becomes spent and always rotates the chunk, whatever the meter reads: the live chunk is submitted, the next chunk is the old counter at the current time, and a recorder is live exactly when it was created |
| SpeechRecognition.Service.ProcessChunk | Narration/Services/SpeechRecognitionService.swift:205-251 | the outcome is the decision of `ChunkOutcomeOf` for the current engine, and the processing flag ends cleared on every path that set or resets it, untouched otherwise |
| SpeechRecognition.Service.ClearText | Narration/Services/SpeechRecognitionService.swift:254-257 | the text is emptied and the counter reset to 0, and nothing else (no timer, recorder or chunk) changes |
| Visit.QuestionsNumberedInOrder | Narration/Models/Question.swift:16-52 | there are seven questions and the i-th is numbered i+1 |
| Visit.EmptyResponses | Narration/Models/VisitSession.swift:14 | seven empty responses |
| Visit.ContainsBlank | Narration/Models/VisitSession.swift:74 | true exactly when some response is blank after trimming |
| Visit.NatToString | Narration/Models/VisitSession.swift:69 | `%d` of a non-negative number is a non-empty string of digits |
| Visit.ParseNatToString | Narration/Models/VisitSession.swift:69 | the digits of `%d` read back as the number |
| Visit.WalkStaysInRange | Narration/Models/VisitSession.swift:42-52 | from any valid index, every sequence of next and previous presses stays within the question indices |
| Visit.WalkForward | Narration/Models/VisitSession.swift:42-46 | k presses of next move min(i+k, last) |
| Visit.VisitSession.constructor | Narration/Models/VisitSession.swift:13-17 | a new session has the seven questions, seven empty responses, index 0, no narrative and is not generating |
| Visit.VisitSession.CurrentQuestion | Narration/Models/VisitSession.swift:19-21 | the current question is one of the list, and on the fixed list it is the question numbered index + 1 |
| Visit.VisitSession.IsFirstQuestion | Narration/Models/VisitSession.swift:23-25 | on a non-negative index, true exactly where the previous button leaves the index unchanged |
| Visit.VisitSession.IsLastQuestion | Narration/Models/VisitSession.swift:27-29 | on an index not past the end, true exactly where the next button leaves the index unchanged |
| Visit.VisitSession.Progress | Narration/Models/VisitSession.swift:31-40 | 0 for no questions, otherwise (clamped index + 1) / count, always within [0, 1] |
| Visit.VisitSession.AllQuestionsAnswered | Narration/Models/VisitSession.swift:73-75 | true exactly when no response is blank after trimming |
| Visit.VisitSession.MoveToNext | Narration/Models/VisitSession.swift:42-46 | the index goes up by one below the last question and is unchanged on it |
| Visit.VisitSession.MoveToPrevious | Narration/Models/VisitSession.swift:48-52 | the index goes down by one above 0 and is unchanged at 0 |
| Visit.VisitSession.ClearSession | Narration/Models/VisitSession.swift:58-63 | seven empty responses, index 0, empty narrative, not generating; the questions are kept |
| Visit.VisitSession.StartNewSession | Narration/Models/VisitSession.swift:54-56 | the same new state as clearing the session |
| Visit.ProgressMarksEnds | Narration/Models/VisitSession.swift:23-40 | the first question shows progress 1/7, and progress is 1 exactly on the last question |
| Visit.ProgressGrowsForward | Narration/Models/VisitSession.swift:31-46 | a step forward never lowers progress and raises it unless on the last question |
| Visit.VisitSession.FormatTime | Narration/Models/VisitSession.swift:66-70 | for s >= 0 the text is the decimal of s/60, ":" and s%60 as exactly two digits |
| Visit.FormatTimeRoundTrip | Narration/Models/VisitSession.swift:66-70 | for s >= 0 the formatted time reads back as s |
| Visit.FormatTimeNegative | Narration/Models/VisitSession.swift:66-70 | negative counts keep Swift's truncation: -65 shows as "-1:-5" and -5 as "0:-5" |
| NarrativeGeneration.StripPunctuation | Narration/Services/NarrativeGenerationService.swift:36 | no `.`, `!` or `?` at either end, empty exactly when the text is all such marks, never longer |
| NarrativeGeneration.StripInfix | Narration/Services/NarrativeGenerationService.swift:36 | the stripped text is the infix that starts right after the leading marks and is followed only by marks |
| NarrativeGeneration.FormatResponse | Narration/Services/NarrativeGenerationService.swift:35-38 | a response of nothing but marks is kept whole; any other becomes non-empty text without marks at its ends; never longer |
| NarrativeGeneration.FormatResponseInfix | Narration/Services/NarrativeGenerationService.swift:35-38 | a response that is not all marks becomes the infix that starts right after its leading marks and is followed only by marks |
| NarrativeGeneration.Cleaned | Narration/Services/NarrativeGenerationService.swift:25-27 | never more entries than responses, and empty exactly when every response is blank |
| NarrativeGeneration.CleanedEntriesTrimmed | Narration/Services/NarrativeGenerationService.swift:25-27 | every cleaned entry is non-empty with no white space at its ends |
| NarrativeGeneration.CleanedMembers | Narration/Services/NarrativeGenerationService.swift:25-27 | a string is a cleaned entry exactly when it is non-empty and the trim of some response |
| NarrativeGeneration.CleanedAppend | Narration/Services/NarrativeGenerationService.swift:25-27 | cleaning a concatenation is the concatenation of the cleanings: blanks vanish and order is kept |
| NarrativeGeneration.FirstCleaned | Narration/Services/NarrativeGenerationService.swift:25-27 | the first cleaned entry is the trim of the first non-blank response |
| NarrativeGeneration.FormatAll | Narration/Services/NarrativeGenerationService.swift:35-38 | one formatted entry per cleaned entry, in the same positions |
| NarrativeGeneration.FormatAllAppend | Narration/Services/NarrativeGenerationService.swift:35-38 | formatting distributes over concatenation |
| NarrativeGeneration.Join | Narration/Services/NarrativeGenerationService.swift:41 | joining no parts gives ""; otherwise the length is the parts' total length plus one separator fewer than there are parts |
| NarrativeGeneration.JoinStartsWithFirst | Narration/Services/NarrativeGenerationService.swift:41 | a join begins with its first part |
| NarrativeGeneration.JoinEndsWithLast | Narration/Services/NarrativeGenerationService.swift:41 | a join ends with its last part |
| NarrativeGeneration.JoinAppend | Narration/Services/NarrativeGenerationService.swift:41 | joining two non-empty lists puts one separator between their joins |
| NarrativeGeneration.ConcatenateResponses | Narration/Services/NarrativeGenerationService.swift:23-42 | the narrative always ends in "."; when every response is blank it is "No responses provided." |
| NarrativeGeneration.ConcatenateWithText | Narration/Services/NarrativeGenerationService.swift:34-41 | with something to narrate, the output is the formatted entries joined by ". " followed by "." |
| NarrativeGeneration.GenerateNarrative | Narration/Services/NarrativeGenerationService.swift:13-21 | the narrative equals the concatenation for every list, the empty one included, so the empty-list guard changes no result |
| NarrativeGeneration.BlankResponseIgnored | Narration/Services/NarrativeGenerationService.swift:25-27 | inserting a blank response anywhere leaves the narrative unchanged |
| NarrativeGeneration.NarrativeAppend | Narration/Services/NarrativeGenerationService.swift:23-42 | the narrative of two lists that each have an answer is the first narrative, a space, and the second |
| NarrativeGeneration.NarrativeOfOne | Narration/Services/NarrativeGenerationService.swift:25-41 | one non-blank response r gives its formatted trim followed by "." |
| NarrativeGeneration.NarrativeStartsWithFirstAnswer | Narration/Services/NarrativeGenerationService.swift:25-41 | the narrative begins with the formatted first non-blank response |
| NarrativeGeneration.PunctuationOnlyResponse | Narration/Services/NarrativeGenerationService.swift:35-41 | a response of only `.`, `!` and `?` is kept and then closed with ".", so "?" gives "?." |
| NarrativeGeneration.FallbackIsAmbiguous | Narration/Services/NarrativeGenerationService.swift:29-32 | one response reading "No responses provided." gives exactly the fallback message |
| NarrativeView.AppendRecognized | Narration/Views/NarrativeView.swift:77-88 | empty speech leaves the answer; the old answer is a prefix of the new one, which ends with the speech; between them is nothing for an empty answer, " " after `.`, `?` or `!`, and ". " otherwise |
| NarrativeView.AppendEndsSentenceBefore | Narration/Views/NarrativeView.swift:85-86 | speech added to a non-empty answer always follows a sentence end and one space |
| NarrativeView.AppendTwice | Narration/Views/NarrativeView.swift:80-86 | two insertions in a row lose and reorder nothing |
| NarrativeView.AppendAfterPlainText | Narration/Views/NarrativeView.swift:85-86 | "Patient is stable" and "No new complaints" give "Patient is stable. No new complaints" |
| NarrativeView.AppendAfterQuestion | Narration/Views/NarrativeView.swift:85-86 | "Any pain?" and "Denies pain" give "Any pain? Denies pain" |
| NarrativeView.AppendAfterWhitespace | Narration/Views/NarrativeView.swift:82-86 | the emptiness test is on the raw answer: " " and "Alert" give " . Alert" |
| NarrativeView.OnTextRecognized | Narration/Views/NarrativeView.swift:77-88 | the current question's answer becomes the insertion of the speech into it, and every other answer is unchanged |
| NarrativeView.HasAnyResponses | Narration/Views/NarrativeView.swift:394-396 | true exactly when some response is non-blank after trimming |
| NarrativeView.HasAnyResponsesIffCleaned | Narration/Views/NarrativeView.swift:394-396 | the final button's test holds exactly when the narrative has something to join |
| NarrativeView.NextDisabled | Narration/Views/NarrativeView.swift:218 | the final button is disabled exactly on the last question while every response is blank after trimming |
| NarrativeView.DisabledMeansFallback | Narration/Views/NarrativeView.swift:218 | whenever the final button is disabled for a session, the narrative of its responses is the fallback message |
| NarrativeView.AnsweredSessionHasResponses | Narration/Views/NarrativeView.swift:394-396 | a session with every question answered enables the final button |
| NarrativeView.GenerateIntoSession | Narration/Views/NarrativeView.swift:427-438 | the session's narrative becomes the generated narrative of its responses and the generating flag ends cleared |

## Left out

- The audio session, the recorder and its metering, the system sounds, the file system, the
  document-directory path and all console logging are foreign platform calls. Their results
  are parameters of the model, and they have no effects in it.
- The WhisperKit model download and the transcription itself are external. The engine's
  answer is a parameter: it throws, or it returns a list of texts.
- Concurrency is not modelled: `Task` and `async` suspension, main-actor hops, and the
  detached `processChunk` tasks. A completed chunk is recorded as handed off, in order. The
  interleaving of its processing with later events is not modelled.
- Run-loop timer scheduling is not modelled, and neither are the 0.1 s and 4 s intervals as
  durations. A timer firing is an explicit `TimerFired` call. The test
  `timeInterval == silenceThreshold` is modelled as the kind of the current timer. That
  ignores Foundation's reporting of a zero interval for one-shot timers.
- The meter's `Float` power is modelled only through its comparison against -30, as a `real`.
- Swift strings count grapheme clusters. The model counts Unicode scalar values, so the
  "fewer than 3 characters" test and the insertion's last-character test differ on combining
  sequences.
- `lowercased()` and the regex engine's case-insensitive matching are modelled for ASCII
  letters only.
- `progress` is computed exactly over the rationals. The rounding of `Double` is not modelled.
- `chunkNumber` is an unbounded natural number. The overflow of a 64-bit `Int` is not
  modelled, because it would take 2^63 chunks.
- Visit.VisitSession.FormatTime: `%d` and `%02d` read their arguments as 32-bit C `int`s, so
  minute counts outside that range would not print as their decimal value. The model prints
  every count in full. A count of seconds that large spans more than 4000 years.
- The `onTextRecognized` closure field of the service is not modelled. The insertion it
  performs is the method `NarrativeView.OnTextRecognized`, and `processChunk` reports the text
  to insert in its outcome instead.
- `recognizedText` is only ever cleared in the code and never set from a transcription. It is
  modelled as such.
- The `errorMessage` field and `checkAuthorization` are not modelled. That method always sets
  `isAuthorized`, so the guard after it at line 75 never throws.
- The `catch` branch of the view's `generateNarrative` is left out, because the service's
  `generateNarrative` never throws. `NarrativeView.GenerateIntoSession` therefore has no error
  path.
- `Question.id` is a random UUID and is not modelled.
- The other views, the templates, persistence and the privacy manager are left out. They are
  user interface or thin wrappers over platform storage.
