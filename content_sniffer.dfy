/**
 * `is_text`: one read of at most 1024 bytes, and every byte read must lie in
 * a fixed set of "text" bytes.
 */
module ContentSniffer {
  import opened Wrappers
  import opened Utf8
  import opened Io

  /** Size of the buffer `is_text` reads into. */
  const ReadLimit: nat := 1024

  /** The set `is_text` builds: BEL to CR and ESC, printable ASCII, and every byte from 0x80 up. */
  const ControlTextChars: set<byte> := {7, 8, 9, 10, 11, 12, 13, 27}
  const TextChars: set<byte> :=
    ControlTextChars + (set b: byte | 0x20 <= b < 0x7F) + (set b: byte | 0x80 <= b <= 0xFF)

  /** Reference definition: the bytes that make a file binary. */
  predicate IsBinaryByte(b: byte)
  {
    b <= 6 || 14 <= b <= 26 || 28 <= b <= 31 || b == 0x7F
  }

  /** The text set is exactly the complement of the binary bytes. */
  lemma TextCharsComplement(b: byte)
    ensures b in TextChars <==> !IsBinaryByte(b)
  {
  }

  /** The bytes one `read` into the 1024-byte buffer delivers. */
  function Chunk(bytes: seq<byte>): (c: seq<byte>)
    ensures c <= bytes
    ensures |c| == if |bytes| <= ReadLimit then |bytes| else ReadLimit
  {
    if |bytes| <= ReadLimit then bytes else bytes[..ReadLimit]
  }

  predicate IsTextChunk(chunk: seq<byte>)
  {
    forall i :: 0 <= i < |chunk| ==> chunk[i] in TextChars
  }

  /** `is_text`: an error when the read fails, otherwise whether the chunk holds text bytes only. */
  function IsText(source: ByteSource): (r: Result<bool, IdentifyError>)
    ensures r.Failure? <==> source.BrokenStream?
    ensures r.Failure? ==> r.error == IoError
    ensures r.Success? ==>
      (r.value <==> forall i :: 0 <= i < |source.bytes| && i < ReadLimit ==> !IsBinaryByte(source.bytes[i]))
  {
    match source
    case BrokenStream => Failure(IoError)
    case Stream(bytes) =>
      var chunk := Chunk(bytes);
      assert forall i :: 0 <= i < |chunk| ==> chunk[i] == bytes[i];
      Success(IsTextChunk(chunk))
  }

  /** An empty input is text. */
  lemma EmptyIsText()
    ensures IsText(Stream([])) == Success(true)
  {
  }

  /** One binary byte within the first 1024 bytes (a NUL, a DEL, ...) makes the input binary. */
  lemma BinaryByteMakesBinary(bytes: seq<byte>, k: nat)
    requires k < |bytes| && k < ReadLimit
    requires IsBinaryByte(bytes[k])
    ensures IsText(Stream(bytes)) == Success(false)
  {
  }

  /** `hello\x00world` and the random bytes `43 92 D9 0F AF 32 2C` are binary; the latter for its `0F`. */
  lemma BinaryDataExamples(pre: seq<byte>, post: seq<byte>)
    requires |pre| < ReadLimit
    ensures IsText(Stream(pre + [0x00] + post)) == Success(false)
    ensures IsText(Stream([0x43, 0x92, 0xD9, 0x0F, 0xAF, 0x32, 0x2C])) == Success(false)
  {
    BinaryByteMakesBinary(pre + [0x00] + post, |pre|);
    BinaryByteMakesBinary([0x43, 0x92, 0xD9, 0x0F, 0xAF, 0x32, 0x2C], 3);
  }

  /** Bytes after the first 1024 are never looked at. */
  lemma OnlyFirstChunkMatters(a: seq<byte>, b: seq<byte>)
    requires |a| >= ReadLimit
    ensures IsText(Stream(a + b)) == IsText(Stream(a))
  {
    assert Chunk(a + b) == Chunk(a);
  }

  /** The start of an ELF header, `7F 45 4C 46 02 01 01`, is binary. */
  lemma ElfHeaderIsBinary()
    ensures IsText(Stream([0x7F, 0x45, 0x4C, 0x46, 0x02, 0x01, 0x01])) == Success(false)
  {
    BinaryByteMakesBinary([0x7F, 0x45, 0x4C, 0x46, 0x02, 0x01, 0x01], 0);
  }

  /** No byte of a character's encoding is binary unless the character is an ASCII one that is. */
  lemma EncodeCharIsText(c: char)
    requires !(c as int < 0x80 && IsBinaryByte(c as int))
    ensures forall i :: 0 <= i < |EncodeChar(c)| ==> !IsBinaryByte(EncodeChar(c)[i])
  {
  }

  /**
   * Any UTF-8 text free of the binary control characters is text, for
   * instance `hello world` or `éóñəå ⊂(◉‿◉)つ`.
   */
  lemma {:induction false} EncodedTextIsText(s: string)
    requires forall i :: 0 <= i < |s| ==> !(s[i] as int < 0x80 && IsBinaryByte(s[i] as int))
    ensures forall i :: 0 <= i < |Encode(s)| ==> !IsBinaryByte(Encode(s)[i])
    ensures IsText(Stream(Encode(s))) == Success(true)
  {
    if s != [] {
      EncodeCharIsText(s[0]);
      EncodedTextIsText(s[1..]);
      var head, tail := EncodeChar(s[0]), Encode(s[1..]);
      assert Encode(s) == head + tail;
      forall i | 0 <= i < |head + tail|
        ensures !IsBinaryByte((head + tail)[i])
      {
        if i >= |head| {
          assert (head + tail)[i] == tail[i - |head|];
        }
      }
    }
  }
}
