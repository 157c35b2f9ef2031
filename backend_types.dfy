/// Shared backend types (backend/src/types/index.ts) and the uploaded-file record
/// that the upload middleware hands to the services.
module BackendTypes {

  /** A byte of an uploaded file. */
  type Byte = b: int | 0 <= b < 256

  /** The three classifications a file can receive. */
  datatype FileType = Text | Audio | Unknown

  /** An uploaded file as the upload middleware describes it. */
  datatype UploadedFile = UploadedFile(
    originalname: string,
    mimetype: string,
    size: nat,
    buffer: seq<Byte>)

  /** The text extracted from a file, with its type and the method that produced it. */
  datatype FileProcessingResult = FileProcessingResult(
    extractedText: string,
    fileType: FileType,
    processingMethod: string)

  /** One mebibyte, the unit every size limit of the backend is written in. */
  const MiB: nat := 1024 * 1024
}
