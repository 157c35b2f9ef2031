/// The values the Android recording use cases exchange (app/.../domain/model/RecordingResult.kt):
/// files and recorders are identities, results are the two sealed hierarchies.
module RecordingTypes {

  /** A `java.io.File`, known by its path; whether it exists and how long it is are read from
      the file system, so they come in as parameters where the use cases ask. */
  datatype File = File(path: string)

  /** A `MediaRecorder` object, known only by its identity. */
  type Recorder = nat

  /** `RecordingResult`: success, or an error with a message (the exception is dropped). */
  datatype RecordingResult = Success | Error(message: string)

  /** `UploadResult`: uploaded, kept locally at a path, or an error. */
  datatype UploadResult = UploadSuccess | LocalSave(filePath: string) | UploadError(message: string)
}
