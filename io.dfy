/**
 * What the identification functions see of the operating system: the bytes
 * a reader delivers and the errors they report.
 */
module Io {
  import opened Utf8

  /** What a reader delivers: its bytes, or an I/O error. */
  datatype ByteSource = Stream(bytes: seq<byte>) | BrokenStream

  /** `IdentifyError`: the path is missing, or an I/O operation failed. */
  datatype IdentifyError = PathNotFound(path: string) | IoError
}
