/// The older segment-list recorder (app/.../audioai/domain/usecase/RecordingUseCase.kt):
/// pausing stops the recorder, resuming starts a new segment file, and finishing takes the
/// first segment as the recording. What the recorder, the file manager and the file system
/// answer comes in as parameters; the files the use case deletes are kept in a log.
module AudioaiRecordingUseCase {
  import opened JsCore
  import opened RecordingTypes

  const StartFailedPrefix := "Failed to start recording: "
  const PauseFailedPrefix := "Failed to pause recording: "
  const ResumeFailedPrefix := "Failed to resume recording: "
  const FinishFailedPrefix := "Failed to finish recording: "
  const NoSegments := "No recording segments found - recording may not have started properly"
  const SegmentsNotProcessed := "Failed to process recording segments"
  const FileNotFound := "Recording file not found"
  const FileEmpty := "Recording file is empty"
  const NoFileForUpload := "No recording file available for upload"

  /** The use case's four fields. */
  datatype Session = Session(
    mediaRecorder: Option<Recorder>,
    outputFile: Option<File>,
    segments: seq<File>,
    finalRecordingFile: Option<File>)
  {
    /** The final recording, once chosen, is the first segment. */
    predicate Valid() {
      finalRecordingFile.Some? ==> segments != [] && finalRecordingFile.value == segments[0]
    }
  }

  /** How an attempt to get a recorder going on a new file ends: started, failed before a
      recorder was made (making the file or the recorder threw), or failed once the new
      recorder had been stored (`prepare` or `start` threw). */
  datatype Launch = Started | FailedBeforeRecorder(message: string) | FailedWithRecorder(message: string)
  {
    predicate Failed() {
      !Started?
    }
  }

  /** What one call does: the fields after it, what it returns, and the files it deletes. */
  datatype Step<R> = Step(session: Session, result: R, deleted: seq<File>)

  const Cleared := Session(None, None, [], None)

  /** `combineAudioSegments`: the first segment stands for all of them. */
  function CombineAudioSegments(segments: seq<File>): (r: Option<File>)
    ensures r.Some? <==> segments != []
    ensures r.Some? ==> r.value == segments[0]
  {
    if segments == [] then None else Some(segments[0])
  }

  /** `startRecording`: segments and final file cleared, then `file` is created and recorded
      into. A failure releases whatever recorder is held and leaves nothing behind. */
  function StartStep(s: Session, file: File, recorder: Recorder, launch: Launch)
    : (r: Step<RecordingResult>)
    ensures r.result.Success? <==> launch.Started?
    ensures launch.Started? ==> r.session == Session(Some(recorder), Some(file), [file], None)
    ensures launch.Failed() ==> r.session == Cleared && r.result == Error(StartFailedPrefix + launch.message)
    ensures r.deleted == []
  {
    if launch.Started? then Step(Session(Some(recorder), Some(file), [file], None), Success, [])
    else Step(Cleared, Error(StartFailedPrefix + launch.message), [])
  }

  /** `pauseRecording`: the held recorder is stopped, released and dropped; with none held the
      call succeeds and changes nothing. `failure` is the message of a `stop` that threw. */
  function PauseStep(s: Session, failure: Option<string>): (r: Step<RecordingResult>)
    ensures r.result.Success? <==> s.mediaRecorder.None? || failure.None?
    ensures r.result.Success? ==> r.session == s.(mediaRecorder := None)
    ensures r.result.Error? ==> r.session == s && r.result == Error(PauseFailedPrefix + failure.value)
    ensures r.deleted == []
  {
    if s.mediaRecorder.Some? && failure.Some? then Step(s, Error(PauseFailedPrefix + failure.value), [])
    else Step(s.(mediaRecorder := None), Success, [])
  }

  /** `resumeRecording`: a new segment file with a new recorder; the segment joins the list
      only once the recorder has started. */
  function ResumeStep(s: Session, segment: File, recorder: Recorder, launch: Launch)
    : (r: Step<RecordingResult>)
    ensures r.result.Success? <==> launch.Started?
    ensures launch.Started? ==>
              r.session == s.(mediaRecorder := Some(recorder), segments := s.segments + [segment])
    ensures launch.FailedBeforeRecorder? ==> r.session == s
    ensures launch.FailedWithRecorder? ==> r.session == s.(mediaRecorder := Some(recorder))
    ensures launch.Failed() ==> r.result == Error(ResumeFailedPrefix + launch.message)
    ensures r.deleted == []
  {
    match launch
    case Started =>
      Step(s.(mediaRecorder := Some(recorder), segments := s.segments + [segment]), Success, [])
    case FailedBeforeRecorder(m) => Step(s, Error(ResumeFailedPrefix + m), [])
    case FailedWithRecorder(m) => Step(s.(mediaRecorder := Some(recorder)), Error(ResumeFailedPrefix + m), [])
  }

  /** `finishRecording`: the recorder is stopped and dropped, and the first segment becomes the
      final recording, which must exist and not be empty. `failure` is the message of a
      `release` that threw; `fileExists` and `length` are what the file system says of the
      final recording. */
  function FinishStep(s: Session, failure: Option<string>, fileExists: bool, length: nat)
    : (r: Step<RecordingResult>)
    ensures r.session.mediaRecorder.None?
    ensures r.session.outputFile == s.outputFile && r.session.segments == s.segments
    ensures r.result.Success? <==>
              (s.mediaRecorder.None? || failure.None?) && s.segments != [] && fileExists && length != 0
    ensures s.mediaRecorder.Some? && failure.Some? ==>
              r.session == s.(mediaRecorder := None)
              && r.result == Error(FinishFailedPrefix + failure.value)
    ensures (s.mediaRecorder.None? || failure.None?) ==>
              r.session.finalRecordingFile == CombineAudioSegments(s.segments)
    ensures (s.mediaRecorder.None? || failure.None?) && s.segments == [] ==> r.result == Error(NoSegments)
    ensures (s.mediaRecorder.None? || failure.None?) && s.segments != [] && !fileExists ==>
              r.result == Error(FileNotFound)
    ensures (s.mediaRecorder.None? || failure.None?) && s.segments != [] && fileExists && length == 0 ==>
              r.result == Error(FileEmpty)
    ensures r.deleted == []
  {
    if s.mediaRecorder.Some? && failure.Some? then
      Step(s.(mediaRecorder := None), Error(FinishFailedPrefix + failure.value), [])
    else
      var finalFile := CombineAudioSegments(s.segments);
      var t := s.(mediaRecorder := None, finalRecordingFile := finalFile);
      if finalFile.None? then Step(t, Error(NoSegments), [])
      else if !fileExists then Step(t, Error(FileNotFound), [])
      else if length == 0 then Step(t, Error(FileEmpty), [])
      else Step(t, Success, [])
  }

  /** `uploadRecording`: with a final recording on disk, the repository's answer is returned,
      the final file deleted if it was uploaded, and every segment deleted and forgotten. */
  function UploadStep(s: Session, fileExists: bool, outcome: UploadResult): (r: Step<UploadResult>)
    ensures s.finalRecordingFile.Some? && fileExists ==>
              r.result == outcome
              && r.session == s.(segments := [], finalRecordingFile := None)
              && r.deleted == (if outcome.UploadSuccess? then [s.finalRecordingFile.value] else []) + s.segments
    ensures !(s.finalRecordingFile.Some? && fileExists) ==>
              r == Step(s, UploadError(NoFileForUpload), [])
  {
    if s.finalRecordingFile.Some? && fileExists then
      var uploaded := if outcome.UploadSuccess? then [s.finalRecordingFile.value] else [];
      Step(s.(segments := [], finalRecordingFile := None), outcome, uploaded + s.segments)
    else Step(s, UploadError(NoFileForUpload), [])
  }

  /** `resetRecording`: recorder, files and segments all gone; the segments are deleted. */
  function ResetStep(s: Session): (r: Step<()>)
    ensures r.session == Cleared && r.deleted == s.segments
  {
    Step(Cleared, (), s.segments)
  }

  /** Every call keeps the final recording equal to the first segment. */
  lemma StepsKeepValid(s: Session, file: File, recorder: Recorder, launch: Launch,
                       failure: Option<string>, fileExists: bool, length: nat, outcome: UploadResult)
    requires s.Valid()
    ensures StartStep(s, file, recorder, launch).session.Valid()
    ensures PauseStep(s, failure).session.Valid()
    ensures ResumeStep(s, file, recorder, launch).session.Valid()
    ensures FinishStep(s, failure, fileExists, length).session.Valid()
    ensures UploadStep(s, fileExists, outcome).session.Valid()
    ensures ResetStep(s).session.Valid()
  {
    if launch.Started? {
      assert s.segments == [] || (s.segments + [file])[0] == s.segments[0];
    }
  }

  /** A resume or a pause, with how it goes. */
  datatype Command =
    | PauseCall(failure: Option<string>)
    | ResumeCall(segment: File, recorder: Recorder, launch: Launch)

  function Apply(s: Session, c: Command): Session {
    match c
    case PauseCall(failure) => PauseStep(s, failure).session
    case ResumeCall(segment, recorder, launch) => ResumeStep(s, segment, recorder, launch).session
  }

  function Run(s: Session, commands: seq<Command>): Session
    decreases |commands|
  {
    if commands == [] then s else Run(Apply(s, commands[0]), commands[1..])
  }

  /** Pauses and resumes only ever add segments after the ones there are, and never choose a
      final recording. */
  lemma {:induction false} PauseResumeExtendSegments(s: Session, commands: seq<Command>)
    requires s.finalRecordingFile.None?
    ensures Run(s, commands).finalRecordingFile.None?
    ensures |Run(s, commands).segments| >= |s.segments|
    ensures Run(s, commands).segments[..|s.segments|] == s.segments
    decreases |commands|
  {
    if commands != [] {
      var t := Apply(s, commands[0]);
      PauseResumeExtendSegments(t, commands[1..]);
      assert t.segments[..|s.segments|] == s.segments;
    }
  }

  /** Whatever pauses and resumes follow a successful start, finishing picks the file the
      start recorded into. */
  lemma FinalRecordingIsFirstFile(s: Session, file: File, recorder: Recorder, commands: seq<Command>,
                                  failure: Option<string>, fileExists: bool, length: nat)
    ensures var t := Run(StartStep(s, file, recorder, Started).session, commands);
            FinishStep(t, failure, fileExists, length).session.finalRecordingFile
            == if t.mediaRecorder.Some? && failure.Some? then None else Some(file)
  {
    var started := StartStep(s, file, recorder, Started).session;
    PauseResumeExtendSegments(started, commands);
    var t := Run(started, commands);
    assert t.segments[..1] == [file];
    assert t.segments[0] == file;
  }

  /** An upload attempt with a final file always clears it and the segments, whatever the
      repository answers. */
  lemma UploadAttemptClears(s: Session, outcome: UploadResult)
    requires s.finalRecordingFile.Some?
    ensures UploadStep(s, true, outcome).session.segments == []
    ensures UploadStep(s, true, outcome).session.finalRecordingFile.None?
    ensures s.Valid() ==> s.finalRecordingFile.value in UploadStep(s, true, outcome).deleted
  {
  }

  /** The four fields and the log of deleted files. */
  class RecordingUseCase {
    var mediaRecorder: Option<Recorder>
    var outputFile: Option<File>
    var recordingSegments: seq<File>
    var finalRecordingFile: Option<File>
    var deleted: seq<File>

    function Fields(): Session
      reads this
    {
      Session(mediaRecorder, outputFile, recordingSegments, finalRecordingFile)
    }

    predicate Valid()
      reads this
    {
      Fields().Valid()
    }

    constructor()
      ensures Fields() == Cleared && deleted == []
      ensures Valid()
    {
      mediaRecorder := None;
      outputFile := None;
      recordingSegments := [];
      finalRecordingFile := None;
      deleted := [];
    }

    /** `cleanupRecorder`: stop (a failure is ignored), release, forget. */
    method CleanupRecorder()
      modifies this
      ensures Fields() == old(Fields()).(mediaRecorder := None) && deleted == old(deleted)
    {
      mediaRecorder := None;
    }

    /** `cleanupSegments`: delete every segment file, then empty the list. */
    method CleanupSegments()
      modifies this
      ensures Fields() == old(Fields()).(segments := []) && deleted == old(deleted) + old(recordingSegments)
    {
      var i := 0;
      while i < |recordingSegments|
        invariant 0 <= i <= |recordingSegments|
        invariant Fields() == old(Fields()) && deleted == old(deleted) + recordingSegments[..i]
      {
        deleted := deleted + [recordingSegments[i]];
        i := i + 1;
      }
      recordingSegments := [];
    }

    method StartRecording(file: File, recorder: Recorder, launch: Launch) returns (r: RecordingResult)
      requires Valid()
      modifies this
      ensures Valid()
      ensures Fields() == StartStep(old(Fields()), file, recorder, launch).session
      ensures r == StartStep(old(Fields()), file, recorder, launch).result
      ensures deleted == old(deleted)
    {
      recordingSegments := [];
      finalRecordingFile := None;
      match launch
      case FailedBeforeRecorder(m) =>
        if mediaRecorder.Some? {
          CleanupRecorder();
        }
        recordingSegments := [];
        outputFile := None;
        r := Error(StartFailedPrefix + m);
      case FailedWithRecorder(m) =>
        outputFile := Some(file);
        mediaRecorder := Some(recorder);
        CleanupRecorder();
        recordingSegments := [];
        outputFile := None;
        r := Error(StartFailedPrefix + m);
      case Started =>
        outputFile := Some(file);
        mediaRecorder := Some(recorder);
        recordingSegments := recordingSegments + [file];
        r := Success;
    }

    method PauseRecording(failure: Option<string>) returns (r: RecordingResult)
      requires Valid()
      modifies this
      ensures Valid()
      ensures Fields() == PauseStep(old(Fields()), failure).session
      ensures r == PauseStep(old(Fields()), failure).result
      ensures deleted == old(deleted)
    {
      if mediaRecorder.Some? && failure.Some? {
        return Error(PauseFailedPrefix + failure.value);
      }
      mediaRecorder := None;
      r := Success;
    }

    method ResumeRecording(segment: File, recorder: Recorder, launch: Launch) returns (r: RecordingResult)
      requires Valid()
      modifies this
      ensures Valid()
      ensures Fields() == ResumeStep(old(Fields()), segment, recorder, launch).session
      ensures r == ResumeStep(old(Fields()), segment, recorder, launch).result
      ensures deleted == old(deleted)
    {
      if launch.FailedBeforeRecorder? {
        return Error(ResumeFailedPrefix + launch.message);
      }
      mediaRecorder := Some(recorder);
      if launch.FailedWithRecorder? {
        return Error(ResumeFailedPrefix + launch.message);
      }
      recordingSegments := recordingSegments + [segment];
      r := Success;
    }

    method FinishRecording(failure: Option<string>, fileExists: bool, length: nat)
      returns (r: RecordingResult)
      requires Valid()
      modifies this
      ensures Valid()
      ensures Fields() == FinishStep(old(Fields()), failure, fileExists, length).session
      ensures r == FinishStep(old(Fields()), failure, fileExists, length).result
      ensures deleted == old(deleted)
    {
      if mediaRecorder.Some? && failure.Some? {
        CleanupRecorder();
        return Error(FinishFailedPrefix + failure.value);
      }
      mediaRecorder := None;
      if |recordingSegments| > 1 {
        finalRecordingFile := CombineAudioSegments(recordingSegments);
      } else {
        finalRecordingFile := if recordingSegments == [] then None else Some(recordingSegments[0]);
      }
      if finalRecordingFile.None? {
        if recordingSegments == [] {
          return Error(NoSegments);
        }
        return Error(SegmentsNotProcessed);
      }
      if !fileExists {
        return Error(FileNotFound);
      }
      if length == 0 {
        return Error(FileEmpty);
      }
      r := Success;
    }

    method UploadRecording(fileExists: bool, outcome: UploadResult) returns (r: UploadResult)
      requires Valid()
      modifies this
      ensures Valid()
      ensures Fields() == UploadStep(old(Fields()), fileExists, outcome).session
      ensures r == UploadStep(old(Fields()), fileExists, outcome).result
      ensures deleted == old(deleted) + UploadStep(old(Fields()), fileExists, outcome).deleted
    {
      if finalRecordingFile.Some? && fileExists {
        if outcome.UploadSuccess? {
          deleted := deleted + [finalRecordingFile.value];
        }
        CleanupSegments();
        finalRecordingFile := None;
        r := outcome;
      } else {
        r := UploadError(NoFileForUpload);
      }
    }

    method ResetRecording()
      modifies this
      ensures Valid()
      ensures Fields() == ResetStep(old(Fields())).session
      ensures deleted == old(deleted) + ResetStep(old(Fields())).deleted
    {
      CleanupRecorder();
      CleanupSegments();
      outputFile := None;
      finalRecordingFile := None;
    }
  }
}
