/// The recorder state machine (app/.../scribely/domain/usecase/RecordingUseCase.kt): one
/// private `state` moves between Idle, Recording, Paused and Finished. The recorder's and the
/// file system's answers (a call that throws, a file that exists, its length, the upload's
/// outcome) are parameters; the files the use case deletes are kept in a log.
module ScribelyRecordingUseCase {
  import opened JsCore
  import opened RecordingTypes

  /** The private sealed `RecordingState`. */
  datatype RecordingState =
    | Idle
    | Recording(recorder: Recorder, outputFile: File)
    | Paused(recorder: Recorder, outputFile: File)
    | Finished(outputFile: File)
  {
    /** A recorder is held: Recording or Paused. */
    predicate IsActive() {
      Recording? || Paused?
    }
  }

  const StartFailedPrefix := "Failed to start recording: "
  const PauseFailedPrefix := "Failed to pause recording: "
  const ResumeFailedPrefix := "Failed to resume recording: "
  const FinishFailedPrefix := "Failed to finish recording: "
  const NoActiveToPause := "No active recording to pause"
  const NoPausedToResume := "No paused recording to resume"
  const NoActiveToFinish := "No active recording to finish"
  const FileNotFound := "Recording file not found"
  const FileEmpty := "Recording file is empty"
  const FileNoLongerExists := "Recording file no longer exists"
  const PrepareFailed := "Failed to prepare recording for upload"
  const NoFinishedRecording := "No finished recording available for upload"

  /** What one call does: the state after it, what it returns, and the files it deletes. */
  datatype Step<R> = Step(state: RecordingState, result: R, deleted: seq<File>)

  /** `startRecording`: reset, then a fresh recorder on a fresh file; `failure` is the message
      of whatever threw on the way (file creation, prepare, start). */
  function StartStep(s: RecordingState, file: File, recorder: Recorder, failure: Option<string>)
    : (r: Step<RecordingResult>)
    ensures r.result.Success? <==> failure.None?
    ensures r.result.Success? ==> r.state == Recording(recorder, file)
    ensures failure.Some? ==> r.state == Idle && r.result == Error(StartFailedPrefix + failure.value)
    ensures r.deleted == []
  {
    match failure
    case None => Step(Recording(recorder, file), Success, [])
    case Some(m) => Step(Idle, Error(StartFailedPrefix + m), [])
  }

  /** `pauseRecording`: only a Recording state pauses, keeping its recorder and file. */
  function PauseStep(s: RecordingState, failure: Option<string>): (r: Step<RecordingResult>)
    ensures r.result.Success? <==> s.Recording? && failure.None?
    ensures r.result.Success? ==> r.state == Paused(s.recorder, s.outputFile)
    ensures r.result.Error? ==> r.state == s
    ensures !s.Recording? ==> r.result == Error(NoActiveToPause)
    ensures s.Recording? && failure.Some? ==> r.result == Error(PauseFailedPrefix + failure.value)
    ensures r.deleted == []
  {
    match s
    case Recording(recorder, file) =>
      if failure.None? then Step(Paused(recorder, file), Success, [])
      else Step(s, Error(PauseFailedPrefix + failure.value), [])
    case _ => Step(s, Error(NoActiveToPause), [])
  }

  /** `resumeRecording`: only a Paused state resumes, keeping its recorder and file. */
  function ResumeStep(s: RecordingState, failure: Option<string>): (r: Step<RecordingResult>)
    ensures r.result.Success? <==> s.Paused? && failure.None?
    ensures r.result.Success? ==> r.state == Recording(s.recorder, s.outputFile)
    ensures r.result.Error? ==> r.state == s
    ensures !s.Paused? ==> r.result == Error(NoPausedToResume)
    ensures s.Paused? && failure.Some? ==> r.result == Error(ResumeFailedPrefix + failure.value)
    ensures r.deleted == []
  {
    match s
    case Paused(recorder, file) =>
      if failure.None? then Step(Recording(recorder, file), Success, [])
      else Step(s, Error(ResumeFailedPrefix + failure.value), [])
    case _ => Step(s, Error(NoPausedToResume), [])
  }

  /** `finishRecording`: an active recording ends Finished when its file exists and is not
      empty, and Idle otherwise; `failure` is the message of a release (or wait) that threw,
      `fileExists` and `length` what the file system says afterwards. */
  function FinishStep(s: RecordingState, failure: Option<string>, fileExists: bool, length: nat)
    : (r: Step<RecordingResult>)
    ensures r.result.Success? <==> s.IsActive() && failure.None? && fileExists && length != 0
    ensures r.result.Success? ==> r.state == Finished(s.outputFile)
    ensures s.IsActive() && r.result.Error? ==> r.state == Idle
    ensures !s.IsActive() ==> r.state == s && r.result == Error(NoActiveToFinish)
    ensures s.IsActive() && failure.Some? ==> r.result == Error(FinishFailedPrefix + failure.value)
    ensures s.IsActive() && failure.None? && !fileExists ==> r.result == Error(FileNotFound)
    ensures s.IsActive() && failure.None? && fileExists && length == 0 ==> r.result == Error(FileEmpty)
    ensures r.deleted == []
  {
    if !s.IsActive() then Step(s, Error(NoActiveToFinish), [])
    else if failure.Some? then Step(Idle, Error(FinishFailedPrefix + failure.value), [])
    else if !fileExists then Step(Idle, Error(FileNotFound), [])
    else if length == 0 then Step(Idle, Error(FileEmpty), [])
    else Step(Finished(s.outputFile), Success, [])
  }

  /** `uploadRecording`: a Finished recording is converted into `uploadFile` and handed to the
      repository; the converted file is always deleted once made, the recording and the
      state only on `UploadSuccess`. */
  function UploadStep(s: RecordingState, fileExists: bool, uploadFile: File, converted: bool,
                      uploadExists: bool, outcome: UploadResult): (r: Step<UploadResult>)
    ensures r.state != s <==> s.Finished? && fileExists && converted && uploadExists && outcome.UploadSuccess?
    ensures r.state != s ==> r.state == Idle
    ensures !s.Finished? ==> r.result == UploadError(NoFinishedRecording) && r.deleted == []
    ensures s.Finished? && !fileExists ==> r.result == UploadError(FileNoLongerExists) && r.deleted == []
    ensures s.Finished? && fileExists && !(converted && uploadExists) ==>
              r.result == UploadError(PrepareFailed) && r.deleted == [uploadFile]
    ensures s.Finished? && fileExists && converted && uploadExists ==>
              r.result == outcome
              && r.deleted == [uploadFile] + (if outcome.UploadSuccess? then [s.outputFile] else [])
  {
    match s
    case Finished(file) =>
      if !fileExists then Step(s, UploadError(FileNoLongerExists), [])
      else if !converted || !uploadExists then Step(s, UploadError(PrepareFailed), [uploadFile])
      else if outcome.UploadSuccess? then Step(Idle, outcome, [uploadFile, file])
      else Step(s, outcome, [uploadFile])
    case _ => Step(s, UploadError(NoFinishedRecording), [])
  }

  /** A pause or a resume call, with what the recorder does. */
  datatype Command = PauseCall(failure: Option<string>) | ResumeCall(failure: Option<string>)

  function Apply(s: RecordingState, c: Command): RecordingState {
    match c
    case PauseCall(failure) => PauseStep(s, failure).state
    case ResumeCall(failure) => ResumeStep(s, failure).state
  }

  function Run(s: RecordingState, commands: seq<Command>): RecordingState
    decreases |commands|
  {
    if commands == [] then s else Run(Apply(s, commands[0]), commands[1..])
  }

  /** Pausing then resuming a recording gives back the same recording. */
  lemma PauseThenResume(recorder: Recorder, file: File)
    ensures ResumeStep(PauseStep(Recording(recorder, file), None).state, None).state
            == Recording(recorder, file)
  {
  }

  /** Any run of pauses and resumes keeps the recorder and the file a start chose. */
  lemma {:induction false} PauseResumeKeepSession(s: RecordingState, recorder: Recorder, file: File,
                                                  commands: seq<Command>)
    requires s == Recording(recorder, file) || s == Paused(recorder, file)
    ensures Run(s, commands) == Recording(recorder, file) || Run(s, commands) == Paused(recorder, file)
    decreases |commands|
  {
    if commands != [] {
      PauseResumeKeepSession(Apply(s, commands[0]), recorder, file, commands[1..]);
    }
  }

  /** A finished recording is the file that `startRecording` created, however often it was
      paused and resumed in between. */
  lemma FinishedFileIsStartedFile(s: RecordingState, file: File, recorder: Recorder,
                                  commands: seq<Command>, fileExists: bool, length: nat)
    requires FinishStep(Run(StartStep(s, file, recorder, None).state, commands), None, fileExists, length)
               .result.Success?
    ensures FinishStep(Run(StartStep(s, file, recorder, None).state, commands), None, fileExists, length)
              .state == Finished(file)
  {
    PauseResumeKeepSession(Recording(recorder, file), recorder, file, commands);
  }

  /** The private `state` and the log of deleted files. */
  class RecordingUseCase {
    var state: RecordingState
    var deleted: seq<File>

    constructor()
      ensures state == Idle && deleted == []
    {
      state := Idle;
      deleted := [];
    }

    /** `resetRecording`: whatever the state, it is Idle afterwards. */
    method ResetRecording()
      modifies this
      ensures state == Idle && deleted == old(deleted)
    {
      state := Idle;
    }

    method StartRecording(file: File, recorder: Recorder, failure: Option<string>)
      returns (r: RecordingResult)
      modifies this
      ensures state == StartStep(old(state), file, recorder, failure).state
      ensures r == StartStep(old(state), file, recorder, failure).result
      ensures deleted == old(deleted)
    {
      ResetRecording();
      if failure.Some? {
        ResetRecording();
        r := Error(StartFailedPrefix + failure.value);
      } else {
        state := Recording(recorder, file);
        r := Success;
      }
    }

    method PauseRecording(failure: Option<string>) returns (r: RecordingResult)
      modifies this
      ensures state == PauseStep(old(state), failure).state
      ensures r == PauseStep(old(state), failure).result
      ensures deleted == old(deleted)
    {
      match state
      case Recording(recorder, file) =>
        if failure.Some? {
          r := Error(PauseFailedPrefix + failure.value);
        } else {
          state := Paused(recorder, file);
          r := Success;
        }
      case _ =>
        r := Error(NoActiveToPause);
    }

    method ResumeRecording(failure: Option<string>) returns (r: RecordingResult)
      modifies this
      ensures state == ResumeStep(old(state), failure).state
      ensures r == ResumeStep(old(state), failure).result
      ensures deleted == old(deleted)
    {
      match state
      case Paused(recorder, file) =>
        if failure.Some? {
          r := Error(ResumeFailedPrefix + failure.value);
        } else {
          state := Recording(recorder, file);
          r := Success;
        }
      case _ =>
        r := Error(NoPausedToResume);
    }

    method FinishRecording(failure: Option<string>, fileExists: bool, length: nat)
      returns (r: RecordingResult)
      modifies this
      ensures state == FinishStep(old(state), failure, fileExists, length).state
      ensures r == FinishStep(old(state), failure, fileExists, length).result
      ensures deleted == old(deleted)
    {
      if !state.IsActive() {
        return Error(NoActiveToFinish);
      }
      var outputFile := state.outputFile;
      if failure.Some? {
        ResetRecording();
        return Error(FinishFailedPrefix + failure.value);
      }
      if !fileExists {
        state := Idle;
        return Error(FileNotFound);
      }
      if length == 0 {
        state := Idle;
        return Error(FileEmpty);
      }
      state := Finished(outputFile);
      r := Success;
    }

    method UploadRecording(fileExists: bool, uploadFile: File, converted: bool, uploadExists: bool,
                           outcome: UploadResult) returns (r: UploadResult)
      modifies this
      ensures state == UploadStep(old(state), fileExists, uploadFile, converted, uploadExists, outcome).state
      ensures r == UploadStep(old(state), fileExists, uploadFile, converted, uploadExists, outcome).result
      ensures deleted
              == old(deleted) + UploadStep(old(state), fileExists, uploadFile, converted, uploadExists, outcome).deleted
    {
      if !state.Finished? {
        return UploadError(NoFinishedRecording);
      }
      var recordingFile := state.outputFile;
      if !fileExists {
        return UploadError(FileNoLongerExists);
      }
      if !converted || !uploadExists {
        deleted := deleted + [uploadFile];
        return UploadError(PrepareFailed);
      }
      deleted := deleted + [uploadFile];
      if outcome.UploadSuccess? {
        deleted := deleted + [recordingFile];
        state := Idle;
      }
      r := outcome;
    }
  }
}
