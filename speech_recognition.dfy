/** The chunked-recording controller of `SpeechRecognitionService`. The microphone, the audio
    session, the recorder's meter, the file system, the clock, the timers and the transcription
    engine are outside the model: what the controller learns from them arrives as parameters
    (did the session activate, was the recorder created, the meter's average power, the time,
    the chunk file's state and the engine's answer), and a timer firing is a call of `TimerFired`. */
module SpeechRecognition {
  import opened Wrappers
  import opened Text
  import opened TranscriptFilter

  /** A meter reading (average power, in dB) below this counts as silence. */
  const SilencePowerThreshold: real := -30.0

  /** A chunk file must be larger than this many bytes to be transcribed. */
  const MinChunkBytes := 1000

  /** The two timers the controller schedules: the 0.1 s repeating poll of the meter, and the
      4 s one-shot countdown (`silenceThreshold`) that ends a chunk. */
  datatype TimerKind = Polling | SilenceCountdown

  /** The timer `silenceTimer` refers to; `valid` is false once it was invalidated or, for the
      one-shot countdown, once it has fired. */
  datatype SilenceTimer = SilenceTimer(kind: TimerKind, valid: bool)

  /** A chunk file, named `chunk_<number>_<createdAt>.wav`. */
  datatype Chunk = Chunk(number: nat, createdAt: int)

  /** Why `startRecording` threw. */
  datatype RecordingError = AudioSessionFailed | RecorderSetupFailed

  /** What the file system reports about a chunk file. */
  datatype ChunkFile = Missing | AttributesUnreadable | Present(size: Option<int>)

  /** What the engine's `transcribe` call does: throw, or return its results' texts. */
  datatype Transcription = EngineError | Results(texts: seq<string>)

  /** How `processChunk` ends. */
  datatype ChunkOutcome =
    | FileMissing
    | Unreadable
    | TooSmall
    | NoEngine
    | TranscriptionFailed
    | Transcribed(raw: string, inserted: Option<string>)
  {
    /** The chunk file is removed. */
    predicate Deletes() {
      Unreadable? || TooSmall? || TranscriptionFailed? || Transcribed?
    }

    /** The engine was asked to transcribe the chunk. */
    predicate Attempted() {
      TranscriptionFailed? || Transcribed?
    }

    /** `isProcessing` is set to false on the way out. */
    predicate EndsProcessing() {
      Unreadable? || NoEngine? || TranscriptionFailed? || Transcribed?
    }
  }

  /** The trimmed text of the engine's first result, or "" when there is none. */
  function FirstText(texts: seq<string>): string {
    if texts == [] then "" else Trim(texts[0])
  }

  /** The decision `processChunk` makes for one chunk file. */
  function ChunkOutcomeOf(file: ChunkFile, engineLoaded: bool, transcription: Transcription): (o: ChunkOutcome)
    ensures o.FileMissing? <==> file.Missing?
    ensures o.TooSmall? <==> file.Present? && file.size.GetOr(0) <= MinChunkBytes
    ensures o.NoEngine? <==> file.Present? && file.size.GetOr(0) > MinChunkBytes && !engineLoaded
    ensures o.Attempted() <==> file.Present? && file.size.GetOr(0) > MinChunkBytes && engineLoaded
    ensures o.Deletes() <==> !(file.Missing? || o.NoEngine?)
    ensures o.Transcribed? <==> o.Attempted() && transcription.Results?
    ensures o.Transcribed? ==> o.raw == FirstText(transcription.texts)
    ensures o.Transcribed? ==>
      (o.inserted.None? <==> FilterInaudibleContent(o.raw) == [])
      && (o.inserted.Some? ==> o.inserted.value == FilterInaudibleContent(o.raw))
  {
    match file
    case Missing => FileMissing
    case AttributesUnreadable => Unreadable
    case Present(size) =>
      if size.GetOr(0) <= MinChunkBytes then TooSmall
      else if !engineLoaded then NoEngine
      else match transcription
        case EngineError => TranscriptionFailed
        case Results(texts) =>
          Transcribed(FirstText(texts), InsertedText(FirstText(texts)))
  }

  /** What the insertion callback receives for one transcript: nothing when the filter
      leaves no text. */
  function InsertedText(raw: string): Option<string> {
    var filtered := FilterInaudibleContent(raw);
    if filtered == [] then None else Some(filtered)
  }

  /** Text handed to the insertion callback is never empty, has at least three characters and
      is already normalized. */
  lemma InsertedTextIsClean(file: ChunkFile, engineLoaded: bool, transcription: Transcription)
    requires ChunkOutcomeOf(file, engineLoaded, transcription).Transcribed?
    requires ChunkOutcomeOf(file, engineLoaded, transcription).inserted.Some?
    ensures var t := ChunkOutcomeOf(file, engineLoaded, transcription).inserted.value;
      |t| >= MinMeaningfulLength && IsNormalized(t)
  {
  }

  /** A chunk the engine hears as `[BLANK_AUDIO]` is transcribed and deleted, and nothing is
      inserted. */
  lemma BlankAudioIsNeverInserted(size: int)
    requires size > MinChunkBytes
    ensures var o := ChunkOutcomeOf(Present(Some(size)), true, Results(["[BLANK_AUDIO]"]));
      o.Transcribed? && o.Deletes() && o.inserted.None?
  {
    var t := "[BLANK_AUDIO]";
    TrimOfTrimmed(t);
    assert FirstText([t]) == t;
    BlankAudioIsMarker();
    assert FilterInaudibleContent(t) == [];
  }

  /** Numbers strictly increase along the list. */
  ghost predicate StrictlyIncreasing(chunks: seq<Chunk>) {
    forall i, j :: 0 <= i < j < |chunks| ==> chunks[i].number < chunks[j].number
  }

  class Service {
    var isRecording: bool
    var isAuthorized: bool
    var recognizedText: string
    var isProcessing: bool
    var whisperKitReady: bool
    /** `whisperKit != nil` */
    var engineLoaded: bool
    /** `audioRecorder != nil` */
    var hasRecorder: bool
    /** `currentChunkURL` */
    var currentChunk: Option<Chunk>
    var chunkNumber: nat
    var silenceTimer: Option<SilenceTimer>
    /** The chunks handed to `processChunk` (each `Task { await processChunk(...) }`), in order. */
    var submitted: seq<Chunk>
    /** Every chunk whose recorder was started, in order. */
    ghost var recorded: seq<Chunk>
    /** The chunks recorded since the counter was last reset. */
    ghost var sinceReset: seq<Chunk>

    /** The controller's invariant: a silence timer exists exactly while recording; a live
        recorder only exists while recording and records the current chunk; every recorded
        chunk is either submitted, once and in recording order, or still live; and since the
        last reset, chunk numbers strictly increase and stay below the counter. */
    ghost predicate Valid()
      reads this
    {
      (isRecording <==> silenceTimer.Some?)
      && (hasRecorder ==> isRecording && currentChunk.Some?)
      && recorded == submitted + (if hasRecorder then [currentChunk.value] else [])
      && StrictlyIncreasing(sinceReset)
      && (forall c :: c in sinceReset ==> c.number < chunkNumber)
    }

    /** `private init()`: nothing is recording and the engine is still loading. */
    constructor ()
      ensures Valid()
      ensures !isRecording && !isAuthorized && recognizedText == [] && !isProcessing
      ensures !whisperKitReady && !engineLoaded && !hasRecorder && currentChunk.None?
      ensures chunkNumber == 0 && silenceTimer.None? && submitted == []
    {
      isRecording, isAuthorized, recognizedText, isProcessing := false, false, [], false;
      whisperKitReady, engineLoaded, hasRecorder, currentChunk := false, false, false, None;
      chunkNumber, silenceTimer, submitted := 0, None, [];
      recorded, sinceReset := [], [];
    }

    /** The end of `initializeWhisperKit`'s task: the engine loaded or failed to. */
    method InitializeWhisperKit(loaded: bool)
      requires Valid()
      modifies this`whisperKitReady, this`engineLoaded
      ensures Valid()
      ensures whisperKitReady == loaded
      ensures engineLoaded == (loaded || old(engineLoaded))
    {
      if loaded {
        engineLoaded := true;
        whisperKitReady := true;
      } else {
        whisperKitReady := false;
      }
    }

    /** `startNewChunk`: names the next chunk after the counter, advances the counter, and
        starts a recorder for it unless creating the recorder throws. Both callers call it only
        when no recorder is live. */
    method StartNewChunk(recorderCreated: bool, now: int) returns (ok: bool)
      requires !hasRecorder
      modifies this`currentChunk, this`chunkNumber, this`hasRecorder, this`recorded, this`sinceReset
      ensures ok == recorderCreated && hasRecorder == ok
      ensures currentChunk == Some(Chunk(old(chunkNumber), now))
      ensures chunkNumber == old(chunkNumber) + 1
      ensures recorded == old(recorded) + (if ok then [Chunk(old(chunkNumber), now)] else [])
      ensures sinceReset == old(sinceReset) + (if ok then [Chunk(old(chunkNumber), now)] else [])
    {
      currentChunk := Some(Chunk(chunkNumber, now));
      chunkNumber := chunkNumber + 1;
      if !recorderCreated {
        return false;
      }
      hasRecorder := true;
      recorded := recorded + [currentChunk.value];
      sinceReset := sinceReset + [currentChunk.value];
      return true;
    }

    /** `finishCurrentChunk`: stops the live recorder and submits its chunk; without a live
        recorder it does nothing, so a chunk is submitted at most once. */
    method FinishCurrentChunk()
      modifies this`hasRecorder, this`submitted
      ensures old(hasRecorder) && currentChunk.Some? ==>
        !hasRecorder && submitted == old(submitted) + [currentChunk.value]
      ensures !(old(hasRecorder) && currentChunk.Some?) ==>
        hasRecorder == old(hasRecorder) && submitted == old(submitted)
    {
      if hasRecorder && currentChunk.Some? {
        hasRecorder := false;
        submitted := submitted + [currentChunk.value];
      }
    }

    /** `startSilenceMonitoring`: replaces whatever timer there was with a fresh poll. */
    method StartSilenceMonitoring()
      modifies this`silenceTimer
      ensures silenceTimer == Some(SilenceTimer(Polling, true))
    {
      silenceTimer := Some(SilenceTimer(Polling, true));
    }

    /** `startRecording`: does nothing while recording; otherwise activates the audio session,
        starts the first chunk, and begins polling. */
    method StartRecording(sessionActivated: bool, recorderCreated: bool, now: int)
      returns (failure: Option<RecordingError>)
      requires Valid()
      modifies this`isAuthorized, this`currentChunk, this`chunkNumber, this`hasRecorder
      modifies this`recorded, this`sinceReset, this`isRecording, this`recognizedText, this`silenceTimer
      ensures Valid()
      ensures old(isRecording) ==> unchanged(this) && failure.None?
      ensures failure.Some? ==>
        !isRecording && recognizedText == old(recognizedText) && silenceTimer == old(silenceTimer)
      ensures !old(isRecording) ==> isAuthorized && submitted == old(submitted)
      ensures !old(isRecording) && !sessionActivated ==>
        failure == Some(AudioSessionFailed) && !isRecording && chunkNumber == old(chunkNumber)
        && currentChunk == old(currentChunk)
      ensures !old(isRecording) && sessionActivated ==>
        currentChunk == Some(Chunk(old(chunkNumber), now)) && chunkNumber == old(chunkNumber) + 1
      ensures !old(isRecording) && sessionActivated && !recorderCreated ==>
        failure == Some(RecorderSetupFailed) && !isRecording && !hasRecorder
      ensures !old(isRecording) && sessionActivated && recorderCreated ==>
        failure.None? && isRecording && hasRecorder && recognizedText == []
        && silenceTimer == Some(SilenceTimer(Polling, true))
    {
      if isRecording {
        return None;
      }
      isAuthorized := true;
      if !sessionActivated {
        return Some(AudioSessionFailed);
      }
      var ok := StartNewChunk(recorderCreated, now);
      if !ok {
        return Some(RecorderSetupFailed);
      }
      isRecording := true;
      recognizedText := [];
      StartSilenceMonitoring();
      return None;
    }

    /** `stopRecording`: does nothing unless recording; otherwise submits the live chunk, drops
        the silence timer and clears the flag. */
    method StopRecording()
      requires Valid()
      modifies this`hasRecorder, this`submitted, this`silenceTimer, this`isRecording
      ensures Valid()
      ensures !old(isRecording) ==> unchanged(this)
      ensures old(isRecording) ==>
        !isRecording && silenceTimer.None? && !hasRecorder
        && submitted == old(submitted) + (if old(hasRecorder) then [currentChunk.value] else [])
    {
      if !isRecording {
        return;
      }
      FinishCurrentChunk();
      silenceTimer := None;
      isRecording := false;
    }

    /** `checkForSilence`, run by the polling timer with the meter's average power. */
    method CheckForSilence(power: real)
      requires Valid()
      modifies this`silenceTimer
      ensures Valid()
      ensures !(hasRecorder && isRecording) ==> silenceTimer == old(silenceTimer)
      ensures hasRecorder && isRecording && power < SilencePowerThreshold ==>
        silenceTimer ==
          if old(silenceTimer).Some? && old(silenceTimer).value.kind == SilenceCountdown
          then old(silenceTimer) else Some(SilenceTimer(SilenceCountdown, true))
      ensures hasRecorder && isRecording && power >= SilencePowerThreshold ==>
        silenceTimer ==
          if old(silenceTimer).Some? && old(silenceTimer).value.kind == SilenceCountdown
          then Some(SilenceTimer(Polling, true)) else old(silenceTimer)
    {
      if !(hasRecorder && isRecording) {
        return;
      }
      if power < SilencePowerThreshold {
        if !(silenceTimer.Some? && silenceTimer.value.kind == SilenceCountdown) {
          silenceTimer := Some(SilenceTimer(SilenceCountdown, true));
        }
      } else {
        if silenceTimer.Some? && silenceTimer.value.kind == SilenceCountdown {
          StartSilenceMonitoring();
        }
      }
    }

    /** `handleSilenceTimeout`: while recording, submits the live chunk, starts the next one
        and resumes polling; if the next recorder cannot be created, recording stays on with no
        recorder and the fired countdown is left in place. */
    method HandleSilenceTimeout(recorderCreated: bool, now: int)
      requires Valid()
      modifies this`hasRecorder, this`submitted, this`currentChunk, this`chunkNumber
      modifies this`recorded, this`sinceReset, this`silenceTimer
      ensures Valid()
      ensures !old(isRecording) ==> unchanged(this)
      ensures old(isRecording) ==>
        submitted == old(submitted) + (if old(hasRecorder) then [old(currentChunk).value] else [])
        && currentChunk == Some(Chunk(old(chunkNumber), now))
        && chunkNumber == old(chunkNumber) + 1
        && hasRecorder == recorderCreated
        && silenceTimer == if recorderCreated then Some(SilenceTimer(Polling, true)) else old(silenceTimer)
    {
      if !isRecording {
        return;
      }
      FinishCurrentChunk();
      var ok := StartNewChunk(recorderCreated, now);
      if ok {
        StartSilenceMonitoring();
      }
    }

    /** The silence timer fires. A valid poll runs `checkForSilence` on the current reading; a
        valid countdown becomes invalid and runs `handleSilenceTimeout`; an invalidated timer
        does nothing. */
    method TimerFired(power: real, recorderCreated: bool, now: int)
      requires Valid()
      modifies this`hasRecorder, this`submitted, this`currentChunk, this`chunkNumber
      modifies this`recorded, this`sinceReset, this`silenceTimer
      ensures Valid()
      ensures !(old(silenceTimer).Some? && old(silenceTimer).value.valid) ==> unchanged(this)
      ensures old(silenceTimer) == Some(SilenceTimer(Polling, true)) ==>
        submitted == old(submitted) && chunkNumber == old(chunkNumber) && hasRecorder == old(hasRecorder)
        && currentChunk == old(currentChunk)
        && (silenceTimer == old(silenceTimer) || silenceTimer == Some(SilenceTimer(SilenceCountdown, true)))
      ensures old(silenceTimer) == Some(SilenceTimer(SilenceCountdown, true)) ==>
        submitted == old(submitted) + (if old(hasRecorder) then [old(currentChunk).value] else [])
        && chunkNumber == old(chunkNumber) + 1
        && currentChunk == Some(Chunk(old(chunkNumber), now)) && hasRecorder == recorderCreated
        && silenceTimer == Some(if recorderCreated then SilenceTimer(Polling, true) else SilenceTimer(SilenceCountdown, false))
    {
      if silenceTimer.Some? && silenceTimer.value.valid {
        if silenceTimer.value.kind == Polling {
          CheckForSilence(power);
        } else {
          silenceTimer := Some(SilenceTimer(SilenceCountdown, false));
          HandleSilenceTimeout(recorderCreated, now);
        }
      }
    }

    /** `processChunk` for one submitted chunk: decides the outcome and keeps `isProcessing`
        set only while the engine is working on it. */
    method ProcessChunk(file: ChunkFile, transcription: Transcription) returns (outcome: ChunkOutcome)
      requires Valid()
      modifies this`isProcessing
      ensures Valid()
      ensures outcome == ChunkOutcomeOf(file, engineLoaded, transcription)
      ensures isProcessing == if outcome.EndsProcessing() then false else old(isProcessing)
    {
      if file.Missing? {
        return FileMissing;
      }
      if file.AttributesUnreadable? {
        isProcessing := false;
        return Unreadable;
      }
      var size := file.size.GetOr(0);
      if size <= MinChunkBytes {
        return TooSmall;
      }
      isProcessing := true;
      if !engineLoaded {
        isProcessing := false;
        return NoEngine;
      }
      match transcription {
        case EngineError =>
          outcome := TranscriptionFailed;
        case Results(texts) =>
          var raw := FirstText(texts);
          outcome := Transcribed(raw, InsertedText(raw));
      }
      isProcessing := false;
    }

    /** `clearText`: empties the recognized text and restarts chunk numbering at 0. */
    method ClearText()
      requires Valid()
      modifies this`recognizedText, this`chunkNumber, this`sinceReset
      ensures Valid()
      ensures recognizedText == [] && chunkNumber == 0
    {
      recognizedText := [];
      chunkNumber := 0;
      sinceReset := [];
    }
  }
}
