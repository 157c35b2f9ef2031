/// The printable-byte heuristic and the size limit
/// (backend/src/services/file-detection/ContentAnalyzer.ts).
module ContentAnalyzer {
  import opened BackendTypes

  /** Only this many leading bytes are inspected. */
  const SampleSize: nat := 1024

  /** A shorter sample is never text. */
  const MinSampleSize: nat := 50

  /** The default limit of `isValidFileSize`, in MiB. */
  const DefaultMaxSizeMB: nat := 50

  /** Printable ASCII (32..126) or tab, line feed, carriage return. */
  predicate IsPrintable(b: Byte) {
    (32 <= b <= 126) || b == 9 || b == 10 || b == 13
  }

  /** The first min(1024, length) bytes. */
  function Sample(buffer: seq<Byte>): (s: seq<Byte>)
    ensures |s| == if |buffer| < SampleSize then |buffer| else SampleSize
    ensures s == buffer[..|s|]
  {
    if |buffer| < SampleSize then buffer else buffer[..SampleSize]
  }

  /** How many bytes of `s` are printable. */
  function PrintableCount(s: seq<Byte>): (n: nat)
    ensures n <= |s|
  {
    if s == [] then 0
    else PrintableCount(s[..|s| - 1]) + (if IsPrintable(s[|s| - 1]) then 1 else 0)
  }

  /** The buffer looks like text: a sample of at least 50 bytes of which strictly more
      than 80% are printable (the ratio test `printable / total > 0.8`, in integers). */
  predicate IsTextLike(buffer: seq<Byte>) {
    var sample := Sample(buffer);
    |sample| >= MinSampleSize && PrintableCount(sample) * 5 > |sample| * 4
  }

  /** Counts the printable bytes of the sample, one byte at a time. */
  method LooksLikeText(buffer: seq<Byte>) returns (isText: bool)
    ensures isText <==> IsTextLike(buffer)
    ensures isText ==> |buffer| >= MinSampleSize
  {
    var sample := buffer[..if |buffer| < SampleSize then |buffer| else SampleSize];
    var totalCount := |sample|;
    if totalCount < MinSampleSize {
      return false;
    }
    var printableCount := 0;
    var i := 0;
    while i < |sample|
      invariant 0 <= i <= |sample|
      invariant printableCount == PrintableCount(sample[..i])
    {
      var b := sample[i];
      if (b >= 32 && b <= 126) || b == 9 || b == 10 || b == 13 {
        printableCount := printableCount + 1;
      }
      assert sample[..i + 1][..i] == sample[..i];
      i := i + 1;
    }
    assert sample[..i] == sample;
    isText := printableCount * 5 > totalCount * 4;
  }

  /** Bytes after the first 1024 never change the answer. */
  lemma OnlySampleMatters(buffer: seq<Byte>, rest: seq<Byte>)
    requires |buffer| >= SampleSize
    ensures IsTextLike(buffer + rest) <==> IsTextLike(buffer)
  {
    assert (buffer + rest)[..SampleSize] == buffer[..SampleSize];
  }

  /** A sample of exactly 100 bytes is text iff at least 81 of them are printable:
      80 printable bytes sit exactly on the 80% line and are not enough. */
  lemma HundredByteThreshold(buffer: seq<Byte>)
    requires |buffer| == 100
    ensures IsTextLike(buffer) <==> PrintableCount(buffer) >= 81
  {
    assert Sample(buffer) == buffer;
  }

  /** A buffer made only of printable bytes is text once it reaches 50 bytes. */
  lemma {:induction false} AllPrintableCount(s: seq<Byte>)
    requires forall i :: 0 <= i < |s| ==> IsPrintable(s[i])
    ensures PrintableCount(s) == |s|
  {
    if s != [] {
      AllPrintableCount(s[..|s| - 1]);
    }
  }

  lemma AllPrintableIsText(buffer: seq<Byte>)
    requires |buffer| >= MinSampleSize
    requires forall i :: 0 <= i < |buffer| ==> IsPrintable(buffer[i])
    ensures IsTextLike(buffer)
  {
    AllPrintableCount(Sample(buffer));
  }

  /** `fileSize <= maxSizeMB * 1024 * 1024`; the limit is inclusive and size 0 passes. */
  function IsValidFileSize(fileSize: int, maxSizeMB: int): (valid: bool)
    ensures valid <==> fileSize <= maxSizeMB * MiB
  {
    var maxFileSize := maxSizeMB * 1024 * 1024;
    fileSize <= maxFileSize
  }
}
