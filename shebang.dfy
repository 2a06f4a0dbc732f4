/**
 * `parse_shebang`: the components of a `#!` line, read from the first line
 * of a byte stream.
 */
module ShebangParser {
  import opened Wrappers
  import opened Utf8
  import opened Str
  import opened ShebangTuples
  import opened Io

  /** Longest stripped first line, in bytes, that is decoded. */
  const LineLimit: nat := 1024
  const Newline: byte := 0x0A
  const CarriageReturn: byte := 0x0D
  const Hash: byte := 0x23
  const Bang: byte := 0x21
  const EnvPath: string := "/usr/bin/env"
  const SplitFlag: string := "-S"

  /** `read_until(b'\n')`: everything up to and including the first newline. */
  function FirstLine(bytes: seq<byte>): (line: seq<byte>)
    ensures line <= bytes
    ensures line == [] <==> bytes == []
    ensures Newline !in bytes ==> line == bytes
    ensures Newline in bytes ==> line != [] && line[|line| - 1] == Newline && Newline !in line[..|line| - 1]
  {
    match IndexOf(bytes, Newline)
    case None => bytes
    case Some(i) =>
      assert bytes[..i + 1][..i] == bytes[..i];
      bytes[..i + 1]
  }

  /**
   * One trailing `\n` is popped, then one trailing `\r`: a CRLF ending loses
   * both bytes, a lone LF or CR ending loses one, any other line is kept.
   */
  function StripLineEnd(line: seq<byte>): (r: seq<byte>)
    ensures r <= line
    ensures |line| >= 2 && line[|line| - 2] == CarriageReturn && line[|line| - 1] == Newline ==>
      r == line[..|line| - 2]
    ensures line != [] && line[|line| - 1] == Newline && !(|line| >= 2 && line[|line| - 2] == CarriageReturn) ==>
      r == line[..|line| - 1]
    ensures line != [] && line[|line| - 1] == CarriageReturn ==> r == line[..|line| - 1]
    ensures line == [] || (line[|line| - 1] != Newline && line[|line| - 1] != CarriageReturn) ==> r == line
  {
    var a := if line != [] && line[|line| - 1] == Newline then line[..|line| - 1] else line;
    if a != [] && a[|a| - 1] == CarriageReturn then a[..|a| - 1] else a
  }

  /** The first line as `parse_shebang` holds it before the `#!` test. */
  function LineOf(bytes: seq<byte>): (line: seq<byte>)
    ensures line <= bytes
  {
    StripLineEnd(FirstLine(bytes))
  }

  predicate HasMarker(line: seq<byte>)
  {
    |line| >= 2 && line[0] == Hash && line[1] == Bang
  }

  /** `Vec::truncate(1024)`. */
  function Truncate(line: seq<byte>): (r: seq<byte>)
    ensures r <= line
    ensures |r| == if |line| <= LineLimit then |line| else LineLimit
  {
    if |line| > LineLimit then line[..LineLimit] else line
  }

  /** `char::is_control`: the general category Cc. */
  predicate IsControl(c: char)
  {
    c as int < 0x20 || 0x7F <= c as int <= 0x9F
  }

  /** The characters a shebang line may hold: ASCII, and no control character but tab. */
  predicate IsAllowedChar(c: char)
  {
    c as int < 0x80 && (!IsControl(c) || c == '\t')
  }

  predicate AllAllowed(s: string)
  {
    forall i :: 0 <= i < |s| ==> IsAllowedChar(s[i])
  }

  /** Trimming keeps a text of allowed characters allowed. */
  lemma TrimKeepsAllowed(text: string)
    requires AllAllowed(text)
    ensures AllAllowed(Trim(text))
  {
    var a := TrimStart(text);
    assert a == text[|text| - |a|..|text|];
    AllowedSlice(text, |text| - |a|, |text|);
    var b := TrimEnd(a);
    assert b == a[0..|b|];
    AllowedSlice(a, 0, |b|);
  }

  lemma AllowedSlice(text: string, lo: nat, hi: nat)
    requires AllAllowed(text)
    requires lo <= hi <= |text|
    ensures AllAllowed(text[lo..hi])
  {
    forall j | 0 <= j < hi - lo ensures IsAllowedChar(text[lo..hi][j]) {
      assert text[lo..hi][j] == text[lo + j];
    }
  }

  /** The two marker bytes decode to the two marker characters, ahead of the rest. */
  lemma MarkerSurvivesDecoding(line: seq<byte>)
    requires HasMarker(line) && Decode(line).Some?
    ensures |Decode(line).value| >= 2 && Decode(line).value[..2] == "#!"
    ensures Decode(line[2..]) == Some(Decode(line).value[2..])
  {
    assert line[..2] + line[2..] == line;
    DecodeAsciiPrefix(line[..2], line[2..]);
    assert AsciiText(line[..2]) == "#!";
  }

  /**
   * The trimmed text after `#!`, or None when there is no line, no marker,
   * or the (truncated) line is not well-formed UTF-8.
   */
  function ShebangText(bytes: seq<byte>): (r: Option<string>)
    ensures r.Some? <==> HasMarker(LineOf(bytes)) && Decode(Truncate(LineOf(bytes))).Some?
    ensures r.Some? ==> |Decode(Truncate(LineOf(bytes))).value| >= 2
    ensures r.Some? ==> r.value == Trim(Decode(Truncate(LineOf(bytes))).value[2..])
  {
    var line := LineOf(bytes);
    if !HasMarker(line) then None
    else
      var kept := Truncate(line);
      match Decode(kept)
      case None => None
      case Some(s) =>
        MarkerSurvivesDecoding(kept);
        Some(Trim(s[2..]))
  }

  /** The command after unwrapping `/usr/bin/env` and `/usr/bin/env -S`. */
  function Command(parts: seq<string>): (cmd: seq<string>)
    ensures |cmd| <= |parts| && cmd == parts[|parts| - |cmd|..]
    ensures parts != [] && parts[0] != EnvPath ==> cmd == parts
  {
    if parts == [] then []
    else if parts[0] == EnvPath then
      if |parts| == 1 then []
      else if parts[1] == SplitFlag then parts[2..]
      else parts[1..]
    else parts
  }

  /** The tuple made from the trimmed text after `#!`, if there is one. */
  function Outcome(text: Option<string>): ShebangTuple
  {
    match text
    case None => New()
    case Some(t) => if !AllAllowed(t) then New() else FromVec(Command(Words(t)))
  }

  /** What `parse_shebang` returns for a source. */
  function Parsed(source: ByteSource): ShebangTuple
  {
    match source
    case BrokenStream => New()
    case Stream(bytes) => Outcome(ShebangText(bytes))
  }

  /** `read_until(b'\n')` into a buffer, then the pops of `\n` and `\r`. */
  method ReadFirstLine(bytes: seq<byte>) returns (line: seq<byte>)
    ensures line == LineOf(bytes)
  {
    line := FirstLine(bytes);
    if |line| == 0 {
      return;
    }
    if line[|line| - 1] == Newline {
      line := line[..|line| - 1];
    }
    if |line| > 0 && line[|line| - 1] == CarriageReturn {
      line := line[..|line| - 1];
    }
  }

  /** The scan of the trimmed line for a character that is not ASCII, or a control other than tab. */
  method CheckChars(text: string) returns (ok: bool)
    ensures ok <==> AllAllowed(text)
  {
    var i := 0;
    while i < |text|
      invariant 0 <= i <= |text|
      invariant forall j :: 0 <= j < i ==> IsAllowedChar(text[j])
    {
      var c := text[i];
      if !(c as int < 0x80) || (IsControl(c) && c != '\t') {
        return false;
      }
      i := i + 1;
    }
    return true;
  }

  /** `parse_shebang`, step by step as the source does it. */
  method ParseShebang(source: ByteSource) returns (t: ShebangTuple)
    ensures t == Parsed(source)
  {
    if source.BrokenStream? {
      return New();
    }
    var text := ReadShebangText(source.bytes);
    if text.None? {
      return New();
    }
    var ok := CheckChars(text.value);
    if !ok {
      return New();
    }
    var cmd := UnwrapEnv(Words(text.value));
    if |cmd| == 0 {
      return New();
    }
    return FromVec(cmd);
  }

  /** The first line, the `#!` test, the truncation, the decoding and the trim. */
  method ReadShebangText(bytes: seq<byte>) returns (text: Option<string>)
    ensures text == ShebangText(bytes)
  {
    var line := ReadFirstLine(bytes);
    if |line| < 2 || line[0] != Hash || line[1] != Bang {
      return None;
    }
    if |line| > LineLimit {
      line := line[..LineLimit];
    }
    assert line == Truncate(LineOf(bytes));
    var decoded := Decode(line);
    if decoded.None? {
      return None;
    }
    MarkerSurvivesDecoding(line);
    return Some(Trim(decoded.value[2..]));
  }

  /** The handling of a leading `/usr/bin/env` and `-S`. */
  method UnwrapEnv(parts: seq<string>) returns (cmd: seq<string>)
    ensures cmd == Command(parts)
  {
    if |parts| == 0 {
      return [];
    }
    if parts[0] == EnvPath {
      if |parts| == 1 {
        cmd := [];
      } else if |parts| >= 2 && parts[1] == SplitFlag {
        if |parts| > 2 {
          cmd := parts[2..];
        } else {
          cmd := [];
        }
      } else {
        cmd := parts[1..];
      }
    } else {
      cmd := parts;
    }
  }

  // ---------------------------------------------------------------------
  // Properties
  // ---------------------------------------------------------------------

  /** A read error and an empty stream both give the empty tuple. */
  lemma NothingReadGivesEmpty()
    ensures Parsed(BrokenStream) == New()
    ensures Parsed(Stream([])) == New()
  {
  }

  /** Without `#!` as its first two bytes a stream has no shebang. */
  lemma MarkerRequired(bytes: seq<byte>)
    requires !(|bytes| >= 2 && bytes[0] == Hash && bytes[1] == Bang)
    ensures Parsed(Stream(bytes)) == New()
  {
  }

  /** The emptiness test on the command: nothing, a bare `env`, or a bare `env -S`. */
  lemma CommandEmptyIff(parts: seq<string>)
    ensures Command(parts) == [] <==> parts == [] || parts == [EnvPath] || parts == [EnvPath, SplitFlag]
  {
    if |parts| >= 2 && parts[0] == EnvPath && parts[1] == SplitFlag && |parts| == 2 {
      assert parts == [EnvPath, SplitFlag];
    }
    if |parts| == 1 && parts[0] == EnvPath {
      assert parts == [EnvPath];
    }
  }

  /** `env` is dropped, and with it a following `-S`. */
  lemma CommandOfEnv(rest: seq<string>)
    ensures Command([EnvPath] + rest) == if rest != [] && rest[0] == SplitFlag then rest[1..] else rest
  {
    var parts := [EnvPath] + rest;
    assert parts[1..] == rest;
    if |rest| >= 1 {
      assert parts[1] == rest[0];
      assert parts[2..] == rest[1..];
    }
  }

  /** A printable token: a non-empty run of the bytes 0x21 to 0x7E. */
  predicate IsPrintableToken(w: string)
  {
    w != [] && forall j :: 0 <= j < |w| ==> 0x21 <= w[j] as int <= 0x7E
  }

  lemma PrintableTokenIsWord(w: string)
    requires IsPrintableToken(w)
    ensures IsWord(w)
  {
    forall j | 0 <= j < |w| ensures !IsWhitespace(w[j]) {
      assert 0x21 <= w[j] as int <= 0x7E;
    }
  }

  /** Splitting text of allowed characters at whitespace gives printable tokens. */
  lemma {:induction false} WordsOfAllowedArePrintable(text: string)
    requires AllAllowed(text)
    ensures forall i :: 0 <= i < |Words(text)| ==> IsPrintableToken(Words(text)[i])
    decreases |text|
  {
    if text != [] {
      if IsWhitespace(text[0]) {
        WordsOfAllowedArePrintable(text[1..]);
      } else {
        var n := WordLength(text);
        WordsOfAllowedArePrintable(text[n..]);
        var w := text[..n];
        assert IsPrintableToken(w) by {
          forall j | 0 <= j < |w| ensures 0x21 <= w[j] as int <= 0x7E {
            assert w[j] == text[j];
          }
        }
        assert Words(text) == [w] + Words(text[n..]);
      }
    }
  }

  lemma CommandKeepsPrintable(parts: seq<string>)
    requires forall i :: 0 <= i < |parts| ==> IsPrintableToken(parts[i])
    ensures forall i :: 0 <= i < |Command(parts)| ==> IsPrintableToken(Command(parts)[i])
  {
    var cmd := Command(parts);
    forall i | 0 <= i < |cmd| ensures IsPrintableToken(cmd[i]) {
      assert cmd[i] == parts[|parts| - |cmd| + i];
    }
  }

  /** Every component of a parsed shebang is a printable ASCII token. */
  lemma ComponentsArePrintable(source: ByteSource)
    ensures forall i :: 0 <= i < Parsed(source).Len() ==> IsPrintableToken(Parsed(source).components[i])
  {
    if source.Stream? && ShebangText(source.bytes).Some? {
      var text := ShebangText(source.bytes).value;
      if AllAllowed(text) {
        WordsOfAllowedArePrintable(text);
        CommandKeepsPrintable(Words(text));
      }
    }
  }

  /** A first line with no line break inside it is read up to the line ending and stripped of it. */
  lemma LineOfUnbroken(b: seq<byte>, rest: seq<byte>)
    requires Newline !in b && CarriageReturn !in b
    requires IsLineEnd(rest)
    ensures LineOf(b + rest) == b
  {
    if rest == [] {
      LineOfEnd(b);
      assert b + rest == b;
    } else if rest[0] == Newline {
      LineOfLf(b, rest);
    } else {
      LineOfCrLf(b, rest);
    }
  }

  /** A stream without line breaks is its own first line. */
  lemma LineOfEnd(b: seq<byte>)
    requires Newline !in b && CarriageReturn !in b
    ensures LineOf(b) == b
  {
    assert FirstLine(b) == b;
    if b != [] {
      assert b[|b| - 1] in b;
    }
  }

  lemma LineOfLf(b: seq<byte>, rest: seq<byte>)
    requires Newline !in b && CarriageReturn !in b
    requires rest != [] && rest[0] == Newline
    ensures LineOf(b + rest) == b
  {
    var s := b + rest;
    assert s[..|b|] == b && s[|b|] == Newline;
    IndexOfFirst(s, Newline, |b|);
    assert FirstLine(s) == b + [Newline];
    assert (b + [Newline])[..|b|] == b;
    assert b == [] || b[|b| - 1] != CarriageReturn by {
      if b != [] {
        assert b[|b| - 1] in b;
      }
    }
  }

  lemma LineOfCrLf(b: seq<byte>, rest: seq<byte>)
    requires Newline !in b && CarriageReturn !in b
    requires |rest| >= 2 && rest[0] == CarriageReturn && rest[1] == Newline
    ensures LineOf(b + rest) == b
  {
    var s := b + rest;
    var cr := b + [CarriageReturn];
    assert s[..|cr|] == cr && s[|cr|] == Newline;
    assert Newline !in cr;
    IndexOfFirst(s, Newline, |cr|);
    assert FirstLine(s) == cr + [Newline];
    assert (cr + [Newline])[..|cr|] == cr;
    assert cr[..|b|] == b;
  }

  /** A line that is ASCII text: no byte of 0x80 or above, no line break. */
  predicate IsAsciiLine(text: string)
  {
    forall i :: 0 <= i < |text| ==> text[i] as int < 0x80 && text[i] != '\n' && text[i] != '\r'
  }

  /** The bytes of `#!` followed by ASCII text. */
  function MarkedLine(text: string): (b: seq<byte>)
    requires IsAsciiLine(text)
    ensures |b| == |text| + 2 && HasMarker(b)
    ensures forall i :: 0 <= i < |b| ==> b[i] < 0x80
    ensures Newline !in b && CarriageReturn !in b
    ensures Decode(b) == Some("#!" + text)
  {
    var a := AsciiBytes(text);
    DecodeAscii(text);
    DecodeAsciiPrefix([Hash, Bang], a);
    assert AsciiText([Hash, Bang]) == "#!";
    [Hash, Bang] + a
  }

  /** Characters allowed in a line built from ASCII text here: printable ASCII and tab. */
  predicate IsLineChar(c: char)
  {
    0x20 <= c as int <= 0x7E || c == '\t'
  }

  /** Text of printable ASCII characters and tabs. */
  predicate IsPrintableLine(text: string)
    ensures IsPrintableLine(text) ==> IsAsciiLine(text) && AllAllowed(text)
  {
    forall i :: 0 <= i < |text| ==> IsLineChar(text[i])
  }

  /** What may follow the first line: nothing, or a line ending (LF or CRLF) and more bytes. */
  predicate IsLineEnd(rest: seq<byte>)
  {
    rest == [] || rest[0] == Newline || (|rest| >= 2 && rest[0] == CarriageReturn && rest[1] == Newline)
  }

  /**
   * A first line `#!text`, ended by a newline, a CRLF or the end of the
   * stream, with printable ASCII text that fits the limit, parses to the
   * command that splitting `text` at whitespace gives.
   */
  lemma ParsesAsciiLine(text: string, rest: seq<byte>)
    requires IsPrintableLine(text)
    requires |text| + 2 <= LineLimit
    requires IsLineEnd(rest)
    ensures Parsed(Stream(MarkedLine(text) + rest)) == FromVec(Command(Words(text)))
  {
    TextOfMarkedLine(text, rest);
    assert AllAllowed(text);
    TrimKeepsAllowed(text);
    WordsOfTrim(text);
  }

  lemma TextOfMarkedLine(text: string, rest: seq<byte>)
    requires IsAsciiLine(text)
    requires |text| + 2 <= LineLimit
    requires IsLineEnd(rest)
    ensures ShebangText(MarkedLine(text) + rest) == Some(Trim(text))
  {
    var a := MarkedLine(text);
    LineOfUnbroken(a, rest);
    assert Truncate(a) == a;
    assert ("#!" + text)[2..] == text;
  }

  /** A `#!` line of nothing but spaces and tabs has no components. */
  lemma BlankShebangGivesEmpty(text: string, rest: seq<byte>)
    requires forall i :: 0 <= i < |text| ==> text[i] == ' ' || text[i] == '\t'
    requires |text| + 2 <= LineLimit
    requires IsLineEnd(rest)
    ensures Parsed(Stream(MarkedLine(text) + rest)) == New()
  {
    ParsesAsciiLine(text, rest);
    WordsEmptyIff(text);
  }

  /** Printable tokens joined by single spaces make a line of printable characters. */
  lemma {:induction false} JoinedTokensAreLineChars(words: seq<string>)
    requires forall i :: 0 <= i < |words| ==> IsPrintableToken(words[i])
    ensures IsPrintableLine(Join(words, ' '))
  {
    if |words| > 1 {
      JoinedTokensAreLineChars(words[1..]);
      var tail := Join(words[1..], ' ');
      var s := Join(words, ' ');
      assert s == words[0] + [' '] + tail;
      forall j | 0 <= j < |s| ensures IsLineChar(s[j]) {
        if j < |words[0]| {
          assert s[j] == words[0][j];
        } else if j > |words[0]| {
          assert s[j] == tail[j - |words[0]| - 1];
        }
      }
    }
  }

  /** The line `#!` followed by the tokens separated by single spaces. */
  function TokenLine(words: seq<string>): (b: seq<byte>)
    requires forall i :: 0 <= i < |words| ==> IsPrintableToken(words[i])
    ensures IsPrintableLine(Join(words, ' ')) && b == MarkedLine(Join(words, ' '))
  {
    JoinedTokensAreLineChars(words);
    MarkedLine(Join(words, ' '))
  }

  /**
   * `#!` and printable tokens separated by spaces: the components are the
   * tokens, with a leading `/usr/bin/env` (and a `-S` after it) removed.
   */
  lemma ParsesTokens(words: seq<string>, rest: seq<byte>)
    requires forall i :: 0 <= i < |words| ==> IsPrintableToken(words[i])
    requires |Join(words, ' ')| + 2 <= LineLimit
    requires IsLineEnd(rest)
    ensures Parsed(Stream(TokenLine(words) + rest)).components == Command(words)
  {
    var text := Join(words, ' ');
    JoinedTokensAreLineChars(words);
    ParsesAsciiLine(text, rest);
    assert TokenLine(words) == MarkedLine(text);
    forall i | 0 <= i < |words| ensures IsWord(words[i]) {
      PrintableTokenIsWord(words[i]);
    }
    WordsOfJoin(words);
  }

  /** Spaces and tabs around the command, after `#!` or before the line end, change nothing. */
  lemma SurroundingBlanksIgnored(pre: string, text: string, post: string, rest: seq<byte>)
    requires forall i :: 0 <= i < |pre| ==> pre[i] == ' ' || pre[i] == '\t'
    requires forall i :: 0 <= i < |post| ==> post[i] == ' ' || post[i] == '\t'
    requires IsPrintableLine(text)
    requires |pre| + |text| + |post| + 2 <= LineLimit
    requires IsLineEnd(rest)
    ensures Parsed(Stream(MarkedLine(pre + text + post) + rest)) == Parsed(Stream(MarkedLine(text) + rest))
  {
    var s := pre + text + post;
    assert s == pre + (text + post);
    assert AllWhitespace(pre) && AllWhitespace(post);
    WordsSkipsWhitespace(pre, text + post);
    WordsIgnoreTrailingWhitespace(text, post);
    assert Words(s) == Words(text);
    assert IsPrintableLine(s) by {
      forall i | 0 <= i < |s| ensures IsLineChar(s[i]) {
        if i < |pre| {
          assert s[i] == pre[i];
        } else if i < |pre| + |text| {
          assert s[i] == text[i - |pre|];
        } else {
          assert s[i] == post[i - |pre| - |text|];
        }
      }
    }
    ParsesAsciiLine(s, rest);
    ParsesAsciiLine(text, rest);
  }

  /**
   * An ASCII control byte other than tab (and the whitespace controls that
   * trimming and splitting treat as separators) anywhere in the decoded part
   * of a marked line rejects the whole line.
   */
  lemma ControlByteRejected(bytes: seq<byte>, k: nat)
    requires HasMarker(LineOf(bytes))
    requires 2 <= k < |LineOf(bytes)| && k < LineLimit
    requires LineOf(bytes)[k] <= 0x08 || 0x0E <= LineOf(bytes)[k] <= 0x1F || LineOf(bytes)[k] == 0x7F
    ensures Parsed(Stream(bytes)) == New()
  {
    var kept := Truncate(LineOf(bytes));
    assert kept[k] == LineOf(bytes)[k];
    if Decode(kept).Some? {
      ControlByteInDecoded(kept, k);
    }
    TextRejected(bytes);
  }

  /** The decoded text keeps a control byte of a marked line, and trimming does not remove it. */
  lemma ControlByteInDecoded(kept: seq<byte>, k: nat)
    requires HasMarker(kept) && Decode(kept).Some?
    requires 2 <= k < |kept|
    requires kept[k] <= 0x08 || 0x0E <= kept[k] <= 0x1F || kept[k] == 0x7F
    ensures |Decode(kept).value| >= 2 && !AllAllowed(Trim(Decode(kept).value[2..]))
  {
    MarkerSurvivesDecoding(kept);
    var body := kept[2..];
    assert body[k - 2] == kept[k];
    DecodeKeepsAscii(body, k - 2);
    DisallowedSurvivesTrim(Decode(body).value, body[k - 2] as char);
  }

  /**
   * VT, FF and CR are whitespace to `trim` but control characters to the
   * scan: one that stands between two printable characters of the text after
   * `#!`, within the decoded part of an ASCII line, rejects the line.
   */
  lemma WhitespaceControlRejected(bytes: seq<byte>, j: nat, k: nat, m: nat)
    requires HasMarker(LineOf(bytes))
    requires 2 <= j < k < m < |LineOf(bytes)| && m < LineLimit
    requires forall i :: 0 <= i <= m ==> LineOf(bytes)[i] < 0x80
    requires 0x0B <= LineOf(bytes)[k] <= 0x0D
    requires 0x21 <= LineOf(bytes)[j] <= 0x7E && 0x21 <= LineOf(bytes)[m] <= 0x7E
    ensures Parsed(Stream(bytes)) == New()
  {
    var line := LineOf(bytes);
    var kept := Truncate(line);
    assert forall i :: 0 <= i <= m ==> kept[i] == line[i];
    if Decode(kept).Some? {
      WhitespaceControlInDecoded(kept, j, k, m);
    }
    TextRejected(bytes);
  }

  /** The decoded text keeps such a control character, and trimming does not remove it. */
  lemma WhitespaceControlInDecoded(kept: seq<byte>, j: nat, k: nat, m: nat)
    requires HasMarker(kept) && Decode(kept).Some?
    requires 2 <= j < k < m < |kept|
    requires forall i :: 0 <= i <= m ==> kept[i] < 0x80
    requires 0x0B <= kept[k] <= 0x0D
    requires 0x21 <= kept[j] <= 0x7E && 0x21 <= kept[m] <= 0x7E
    ensures |Decode(kept).value| >= 2 && !AllAllowed(Trim(Decode(kept).value[2..]))
  {
    MarkerSurvivesDecoding(kept);
    AfterMarkerAscii(kept, m);
    EnclosedControlInAscii(kept[2..], j - 2, k - 2, m - 2);
  }

  /** Dropping the marker shifts the ASCII start of a line down by two. */
  lemma AfterMarkerAscii(kept: seq<byte>, m: nat)
    requires 2 <= m < |kept|
    requires forall i :: 0 <= i <= m ==> kept[i] < 0x80
    ensures forall i :: 0 <= i <= m - 2 ==> kept[2..][i] < 0x80
  {
    forall i | 0 <= i <= m - 2 ensures kept[2..][i] < 0x80 {
      assert kept[2..][i] == kept[i + 2];
    }
  }

  /** The same for well-formed bytes whose start, up to the second printable byte, is ASCII. */
  lemma EnclosedControlInAscii(b: seq<byte>, j: nat, k: nat, m: nat)
    requires Decode(b).Some?
    requires j <= k <= m < |b|
    requires forall i :: 0 <= i <= m ==> b[i] < 0x80
    requires 0x0B <= b[k] <= 0x0D
    requires 0x21 <= b[j] <= 0x7E && 0x21 <= b[m] <= 0x7E
    ensures !AllAllowed(Trim(Decode(b).value))
  {
    DecodeAsciiStart(b, m + 1);
    var text := Decode(b).value;
    assert text[j] as int == b[j] && text[k] as int == b[k] && text[m] as int == b[m];
    EnclosedControlSurvivesTrim(text, j, k, m);
  }

  /** A control character between two printable ones keeps the trimmed text from passing the scan. */
  lemma EnclosedControlSurvivesTrim(text: string, j: nat, k: nat, m: nat)
    requires j <= k <= m < |text|
    requires 0x21 <= text[j] as int <= 0x7E && 0x21 <= text[m] as int <= 0x7E
    requires 0x0B <= text[k] as int <= 0x0D
    ensures !AllAllowed(Trim(text))
  {
    TrimKeepsEnclosed(text, j, k, m);
    var t := Trim(text);
    var p :| 0 <= p < |t| && t[p] == text[k];
    assert !IsAllowedChar(t[p]);
  }

  /** A shebang text that is missing or holds a disallowed character gives the empty tuple. */
  lemma TextRejected(bytes: seq<byte>)
    requires ShebangText(bytes).Some? ==> !AllAllowed(ShebangText(bytes).value)
    ensures Parsed(Stream(bytes)) == New()
  {
  }

  /** A character that is neither whitespace nor allowed is still there after trimming. */
  lemma DisallowedSurvivesTrim(s: string, c: char)
    requires c in s && !IsWhitespace(c) && !IsAllowedChar(c)
    ensures !AllAllowed(Trim(s))
  {
    var j :| 0 <= j < |s| && s[j] == c;
    TrimKeepsNonWhitespace(s, j);
  }

  /** A byte that never occurs in UTF-8 within the decoded part of a line rejects it. */
  lemma NeverUtf8ByteRejected(bytes: seq<byte>, k: nat)
    requires k < |LineOf(bytes)| && k < LineLimit
    requires NeverInUtf8(LineOf(bytes)[k])
    ensures Parsed(Stream(bytes)) == New()
  {
    var kept := Truncate(LineOf(bytes));
    assert kept[k] == LineOf(bytes)[k];
    DecodeRejectsNeverByte(kept, k);
  }

  /**
   * The `#!` test looks at the whole line, truncation comes after it and may
   * cut a two-byte character in half: a line that is ASCII up to byte 1023
   * and has a lead byte there then decodes to nothing, whatever follows.
   */
  lemma TruncationSplittingCharacterRejected(bytes: seq<byte>)
    requires |LineOf(bytes)| > LineLimit
    requires forall i :: 0 <= i < LineLimit - 1 ==> LineOf(bytes)[i] < 0x80
    requires 0xC2 <= LineOf(bytes)[LineLimit - 1] <= 0xDF
    ensures Parsed(Stream(bytes)) == New()
  {
    var kept := Truncate(LineOf(bytes));
    var lead := kept[LineLimit - 1];
    assert kept == kept[..LineLimit - 1] + [lead];
    DecodeAsciiPrefix(kept[..LineLimit - 1], [lead]);
    assert DecodeFirst([lead]).None?;
  }

  /** `F9 93 01 42 CD`, from the source's tests, has no marker. */
  lemma NoMarkerExample()
    ensures Parsed(Stream([0xF9, 0x93, 0x01, 0x42, 0xCD])) == New()
  {
    MarkerRequired([0xF9, 0x93, 0x01, 0x42, 0xCD]);
  }

  /** `#!` followed by `F9 93 01 42 CD`, from the source's tests, is not UTF-8. */
  lemma InvalidUtf8Example()
    ensures Parsed(Stream([Hash, Bang, 0xF9, 0x93, 0x01, 0x42, 0xCD])) == New()
  {
    var a: seq<byte> := [Hash, Bang, 0xF9, 0x93, 0x01, 0x42, 0xCD];
    LineOfEnd(a);
    NeverUtf8ByteRejected(a, 2);
  }

  /** `#!` followed by four NUL bytes, from the source's tests, holds a control character. */
  lemma NulBytesExample()
    ensures Parsed(Stream([Hash, Bang, 0x00, 0x00, 0x00, 0x00])) == New()
  {
    var b: seq<byte> := [Hash, Bang, 0x00, 0x00, 0x00, 0x00];
    LineOfEnd(b);
    ControlByteRejected(b, 2);
  }

  // ---------------------------------------------------------------------
  // The documented cases, stated for every command
  // ---------------------------------------------------------------------

  /** `#!/usr/bin/python`, `#!/usr/bin/foo python`: a command not run through env is kept whole. */
  lemma DirectCommand(words: seq<string>, rest: seq<byte>)
    requires forall i :: 0 <= i < |words| ==> IsPrintableToken(words[i])
    requires words != [] && words[0] != EnvPath
    requires |Join(words, ' ')| + 2 <= LineLimit
    requires IsLineEnd(rest)
    ensures Parsed(Stream(TokenLine(words) + rest)).components == words
  {
    ParsesTokens(words, rest);
  }

  lemma EnvTokensPrintable()
    ensures IsPrintableToken(EnvPath) && IsPrintableToken(SplitFlag)
  {
  }

  lemma PrependToken(w: string, words: seq<string>)
    requires IsPrintableToken(w)
    requires forall i :: 0 <= i < |words| ==> IsPrintableToken(words[i])
    ensures forall i :: 0 <= i < |[w] + words| ==> IsPrintableToken(([w] + words)[i])
  {
  }

  /** `#!/usr/bin/env python3` (and whatever lines follow): env is dropped. */
  lemma EnvCommand(words: seq<string>, rest: seq<byte>)
    requires forall i :: 0 <= i < |words| ==> IsPrintableToken(words[i])
    requires words != [] && words[0] != SplitFlag
    requires |Join([EnvPath] + words, ' ')| + 2 <= LineLimit
    requires IsLineEnd(rest)
    ensures Parsed(Stream(TokenLine([EnvPath] + words) + rest)).components == words
  {
    var all := [EnvPath] + words;
    EnvTokensPrintable();
    PrependToken(EnvPath, words);
    assert Parsed(Stream(TokenLine(all) + rest)).components == Command(all) by {
      ParsesTokens(all, rest);
    }
    assert Command(all) == words by {
      CommandOfEnv(words);
    }
  }

  /** `#!/usr/bin/env -S python -u`: both env and `-S` are dropped. */
  lemma EnvSplitCommand(words: seq<string>, rest: seq<byte>)
    requires forall i :: 0 <= i < |words| ==> IsPrintableToken(words[i])
    requires |Join([EnvPath, SplitFlag] + words, ' ')| + 2 <= LineLimit
    requires IsLineEnd(rest)
    ensures Parsed(Stream(TokenLine([EnvPath, SplitFlag] + words) + rest)).components == words
  {
    var all := [EnvPath, SplitFlag] + words;
    EnvTokensPrintable();
    PrependToken(SplitFlag, words);
    PrependToken(EnvPath, [SplitFlag] + words);
    assert all == [EnvPath] + ([SplitFlag] + words);
    assert ([SplitFlag] + words)[1..] == words;
    CommandOfEnv([SplitFlag] + words);
    ParsesTokens(all, rest);
  }

  /** `#!/usr/bin/env` and `#!/usr/bin/env -S` with nothing after them name no command. */
  lemma BareEnv(words: seq<string>, rest: seq<byte>)
    requires words == [EnvPath] || words == [EnvPath, SplitFlag]
    requires IsLineEnd(rest)
    ensures Parsed(Stream(TokenLine(words) + rest)) == New()
  {
    EnvTokensPrintable();
    assert |Join(words, ' ')| <= 15;
    ParsesTokens(words, rest);
    CommandEmptyIff(words);
  }

  /** The bytes of U+00A0 NO-BREAK SPACE. */
  const NoBreakSpace: seq<byte> := [0xC2, 0xA0]

  /** A marked ASCII line followed by a no-break space: no line break, and the expected text. */
  lemma NoBreakSpaceLine(text: string)
    requires IsAsciiLine(text)
    ensures Newline !in MarkedLine(text) + NoBreakSpace
    ensures CarriageReturn !in MarkedLine(text) + NoBreakSpace
    ensures Decode(MarkedLine(text) + NoBreakSpace) == Some("#!" + text + "\U{00A0}")
  {
    var a := MarkedLine(text);
    var b := a + NoBreakSpace;
    forall i | 0 <= i < |b| ensures b[i] != Newline && b[i] != CarriageReturn {
      if i < |a| {
        assert b[i] == a[i];
      }
    }
    assert Encode("\U{00A0}") == NoBreakSpace;
    DecodeEncode("\U{00A0}");
    DecodeAsciiPrefix(a, []);
    assert a + [] == a;
    assert Decode(a).value == AsciiText(a) + "";
    assert AsciiText(a) == "#!" + text;
    NoBreakSpaceAfterAscii(a);
  }

  lemma NoBreakSpaceAfterAscii(a: seq<byte>)
    requires forall i :: 0 <= i < |a| ==> a[i] < 0x80
    requires Decode(NoBreakSpace) == Some("\U{00A0}")
    ensures Decode(a + NoBreakSpace) == Some(AsciiText(a) + "\U{00A0}")
  {
    DecodeAsciiPrefix(a, NoBreakSpace);
  }

  /**
   * A trailing no-break space is well-formed UTF-8 and Unicode whitespace:
   * trimming removes it, and the line parses as if it were not there.
   */
  lemma TrailingNoBreakSpaceIgnored(text: string, rest: seq<byte>)
    requires IsPrintableLine(text)
    requires |text| + 4 <= LineLimit
    requires IsLineEnd(rest)
    ensures Parsed(Stream(MarkedLine(text) + NoBreakSpace + rest)) == Parsed(Stream(MarkedLine(text) + rest))
  {
    NoBreakSpaceText(text, rest);
    TextOfMarkedLine(text, rest);
  }

  lemma NoBreakSpaceText(text: string, rest: seq<byte>)
    requires IsAsciiLine(text)
    requires |text| + 4 <= LineLimit
    requires IsLineEnd(rest)
    ensures ShebangText(MarkedLine(text) + NoBreakSpace + rest) == Some(Trim(text))
  {
    var a := MarkedLine(text);
    var b := a + NoBreakSpace;
    NoBreakSpaceLine(text);
    LineOfUnbroken(b, rest);
    var s := "#!" + text + "\U{00A0}";
    assert HasMarker(b) by {
      assert b[0] == a[0] && b[1] == a[1];
    }
    ShebangTextOf(b + rest, b, s);
    NoBreakSpaceTrimmed(text);
  }

  lemma NoBreakSpaceTrimmed(text: string)
    ensures Trim(("#!" + text + "\U{00A0}")[2..]) == Trim(text)
  {
    assert ("#!" + text + "\U{00A0}")[2..] == text + "\U{00A0}";
    assert AllWhitespace("\U{00A0}");
    TrimBeforeWhitespace(text, "\U{00A0}");
  }

  /** A marked first line within the limit that decodes to `s` gives the trimmed text after `#!`. */
  lemma ShebangTextOf(bytes: seq<byte>, line: seq<byte>, s: string)
    requires LineOf(bytes) == line && |line| <= LineLimit
    requires HasMarker(line) && Decode(line) == Some(s)
    ensures |s| >= 2 && ShebangText(bytes) == Some(Trim(s[2..]))
  {
    assert Truncate(line) == line;
    MarkerSurvivesDecoding(line);
  }
}
