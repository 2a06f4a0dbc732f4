# file-identify, modelled in Dafny

file-identify classifies a filesystem path by a set of string tags, in the
manner of Python's `identify`:

- a type tag (`directory`, `symlink`, `socket` or `file`);
- for a regular file, a mode tag (`executable` or `non-executable`) from its
  execute permission bits;
- the language and format tags of its name or extension, looked up in fixed
  tables (or in a caller's custom extension table);
- for an executable file the tables do not recognise, the tags of the
  interpreter its `#!` line names;
- `text` or `binary`, from the first 1024 bytes of its content, when no
  encoding tag was found already.

This project models that core: the shebang parser (`parse_shebang`), the
interpreter resolution (`tags_from_interpreter`), the filename analysis
(`tags_from_filename`), the text sniffer (`is_text`), the result tuple
`ShebangTuple` and its Python-style `Display`, the `tags_from_path` pipeline
and the `FileIdentifier` builder with its configured pipeline.

Modules, one per file:

| file | module | models |
|---|---|---|
| `wrappers.dfy` | `Wrappers` | `Option` and `Result` |
| `io.dfy` | `Io` | a byte stream that delivers its bytes or fails; the error variants `PathNotFound` and `IoError` |
| `tags.dfy` | `Tags` | `src/tags.rs`: the eight tag constants, the three groups and their predicates |
| `interpreters.dfy` | `Interpreters` | `src/interpreters.rs`: the 22-entry interpreter table and its lookup |
| `extensions.dfy` | `Extensions` | the extension and name tables, as parameters constrained by the table tests |
| `str.dfy` | `Str` | the `str` operations the core uses: `find`/`rfind`, `split`, `rsplit('/')`, ASCII `to_lowercase`, `trim`, `split_whitespace` |
| `utf8.dfy` | `Utf8` | `String::from_utf8` (decoding of well-formed UTF-8) and encoding |
| `shebang_tuple.dfy` | `ShebangTuples` | `ShebangTuple`, its accessors and its `Display` |
| `shebang.dfy` | `ShebangParser` | `parse_shebang` |
| `content_sniffer.dfy` | `ContentSniffer` | `is_text` |
| `interpreter_resolver.dfy` | `InterpreterResolver` | `tags_from_interpreter` |
| `filename_classifier.dfy` | `FilenameClassifier` | `tags_from_filename` and the extension of a file name |
| `file_classifier.dfy` | `FileClassifier` | `parse_shebang_from_file`, `file_is_text`, the `analyze_*` steps, `tags_from_path` and `FileIdentifier` |

The form of the model follows the source:
- Each procedure that works step by step is a `method` (loops included).
  Its `ensures` ties the result to a specification function.
- The lemmas state what the source promises about those functions.
- `FileIdentifier` is a class. Its builder methods update its three fields.
- The filesystem is a map from path to entry. An entry records its kind, its
  permission bits, its last component and whether it can be opened.
- The extension tables are a parameter `t: Tables`. Lemmas that need the
  table invariants require `Valid(t)`.

## Model

| member | source | states |
|---|---|---|
| Tags.IsTypeTag | src/tags.rs:15-22 | a tag is a type tag exactly when it is `directory`, `file`, `symlink` or `socket` |
| Tags.IsModeTag | src/tags.rs:16-26 | a tag is a mode tag exactly when it is `executable` or `non-executable` |
| Tags.IsEncodingTag | src/tags.rs:17-30 | a tag is an encoding tag exactly when it is `text` or `binary` |
| Tags.GroupsDisjoint | src/lib.rs:938-942 | the type, mode and encoding groups are pairwise disjoint |
| Tags.GroupSizes | src/tags.rs:3-17 | the groups have 4, 2 and 2 members and the eight constants are eight different tags |
| Tags.TypeTagsSize | src/tags.rs:15 | the four type tags are distinct |
| Interpreters.GetInterpreterTags | src/interpreters.rs:32-37 | a key gives its entry, and the answer is empty exactly for a name that is not a key; no answer holds a type, mode or encoding tag |
| Interpreters.EntriesWellFormed | src/interpreters.rs:6-29 | every table entry is non-empty and free of type, mode and encoding tags |
| Interpreters.EntriesNonEmpty | src/interpreters.rs:6-29 | no table entry is empty |
| Interpreters.EntriesFreeOfGroupTags | src/interpreters.rs:6-29 | no table entry holds a type, mode or encoding tag |
| Extensions.OneEncodingIsSingleIntersection | tests/extensions_test.rs:5-24 | "exactly one of text or binary" is the same as an intersection of size one with the encoding group |
| Extensions.LookupEmptyIffMissing | tests/extensions_test.rs:5-24 | in a table whose entries each name an encoding, a lookup is empty exactly on a missing key |
| Str.IndexOf | src/lib.rs:835 | the first position of a byte, or none exactly when it does not occur |
| Str.IndexOfFirst | src/lib.rs:835 | a position holding the byte with none before it is what `IndexOf` finds |
| Str.LastIndexOf | src/lib.rs:654 | `rfind`: the last position of a character, or none exactly when it does not occur |
| Str.LastIndexOfLast | src/lib.rs:654 | a position holding the character with none after it is what `LastIndexOf` finds |
| Str.Split | src/lib.rs:584 | `split`: at least one piece, and no piece holds the separator |
| Str.JoinSplit | src/lib.rs:584 | joining the pieces of a split with the separator gives back the string |
| Str.SplitJoin | src/lib.rs:584 | splitting a join of separator-free pieces gives back the pieces |
| Str.SplitOfCons | src/lib.rs:584 | a separator-free piece is split off at the first separator |
| Str.BaseName | src/lib.rs:643 | `split('/').next_back()`: a slash-free suffix, preceded by a slash when the string has one, the whole string otherwise |
| Str.BaseNameOfPath | src/lib.rs:643 | the last segment of `dir/name` is `name` |
| Str.ToLowerAscii | src/lib.rs:594 | upper-case ASCII letters are shifted down by 32; nothing else changes, and no upper-case letter is left |
| Str.LowerAscii | src/lib.rs:594 | lower-casing keeps the length and lowers every character on its own |
| Str.LowerAsciiIdempotent | src/lib.rs:594 | lower-casing twice is lower-casing once |
| Str.LeadingWhitespace | src/lib.rs:867 | the length of the longest whitespace prefix |
| Str.TrailingWhitespaceStart | src/lib.rs:867 | where the longest whitespace suffix starts |
| Str.TrimStartRemovesWhitespace | src/lib.rs:867 | `trim_start` removes a whitespace prefix and leaves no leading whitespace |
| Str.TrimEndRemovesWhitespace | src/lib.rs:867 | `trim_end` removes a whitespace suffix and leaves no trailing whitespace |
| Str.TrimRemovesOuterWhitespace | src/lib.rs:867 | a trimmed string neither starts nor ends with whitespace |
| Str.TrimIsSlice | src/lib.rs:867 | a trimmed string is a contiguous slice of the original |
| Str.TrimKeepsNonWhitespace | src/lib.rs:867 | trimming keeps every non-whitespace character |
| Str.TrimKeepsEnclosed | src/lib.rs:867 | a character between two non-whitespace characters survives trimming, whitespace or not |
| Str.TrimAllWhitespace | src/lib.rs:867 | an all-whitespace string trims to the empty string |
| Str.TrimBeforeWhitespace | src/lib.rs:867 | whitespace appended to a string does not change its trim |
| Str.TrimStartBeforeWhitespace | src/lib.rs:867 | trimming the front of a string that is not all whitespace keeps whatever follows it |
| Str.TrimEndAfterWhitespace | src/lib.rs:867 | `trim_end` ignores appended whitespace |
| Str.TrimStartAfterWhitespace | src/lib.rs:867 | `trim_start` removes exactly a leading whitespace run |
| Str.TrimEndBeforeWhitespace | src/lib.rs:867 | `trim_end` removes exactly a trailing whitespace run |
| Str.TrimAround | src/lib.rs:867 | trimming whitespace-padded text with no whitespace at its ends gives that text |
| Str.WordLength | src/lib.rs:877 | the length of the leading run of non-whitespace |
| Str.Words | src/lib.rs:877 | `split_whitespace`: every piece is a non-empty run free of whitespace |
| Str.WordsEmptyIff | src/lib.rs:877-880 | there are no words exactly when the text is all whitespace |
| Str.WordsSkipsWhitespace | src/lib.rs:877 | leading whitespace does not change the words |
| Str.WordLengthOfWord | src/lib.rs:877 | a word followed by whitespace or the end is read whole |
| Str.WordsOfWord | src/lib.rs:877 | a word followed by whitespace or the end is the first word |
| Str.WordsOfJoin | src/lib.rs:877 | words joined by single spaces split back into those words |
| Str.WordLengthBeforeWhitespace | src/lib.rs:877 | appended whitespace does not lengthen the first word |
| Str.WordsIgnoreTrailingWhitespace | src/lib.rs:877 | appended whitespace does not change the words |
| Str.WordsOfTrim | src/lib.rs:867-877 | splitting the trimmed text gives the same words as splitting the untrimmed text |
| Str.WordsOfTrimStart | src/lib.rs:867-877 | `trim_start` does not change the words |
| Str.WordsOfTrimEnd | src/lib.rs:867-877 | `trim_end` does not change the words |
| Utf8.DecodeFirst | src/lib.rs:861-864 | a decoded character takes 1 to 4 bytes, one exactly for ASCII, followed by continuation bytes, never led by a byte foreign to UTF-8 |
| Utf8.EncodeChar | src/lib.rs:861-864 | a character is encoded in 1 to 4 bytes |
| Utf8.DecodeFirstOfEncodeChar | src/lib.rs:861-864 | the first character read from an encoding is the encoded character, consuming exactly its bytes |
| Utf8.DecodeFirstOfTwo | src/lib.rs:861-864 | two-byte encodings are read back |
| Utf8.DecodeFirstOfThree | src/lib.rs:861-864 | three-byte encodings are read back |
| Utf8.DecodeFirstOfFour | src/lib.rs:861-864 | four-byte encodings are read back |
| Utf8.DecodeEncode | src/lib.rs:861-864 | decoding inverts encoding |
| Utf8.DecodeAsciiStart | src/lib.rs:861-864 | well-formed input starting with n ASCII bytes decodes to text starting with those n characters |
| Utf8.DecodeAsciiPrefix | src/lib.rs:861-864 | ASCII bytes in front decode one character each and do not change whether the rest decodes |
| Utf8.AsciiText | src/lib.rs:861-864 | the characters of ASCII bytes, one per byte |
| Utf8.AsciiBytes | src/lib.rs:861-864 | the bytes of ASCII text, one per character |
| Utf8.DecodeAscii | src/lib.rs:861-864 | ASCII text written as bytes decodes to itself |
| Utf8.DecodeKeepsAscii | src/lib.rs:861-864 | an ASCII byte of well-formed input appears as that character in the text |
| Utf8.DecodeRejectsNeverByte | src/lib.rs:861-864 | one byte that occurs in no UTF-8 text makes the conversion fail |
| ShebangTuples.ShebangTuple.IsEmpty | src/lib.rs:98-100 | empty exactly when the length is zero |
| ShebangTuples.ShebangTuple.Get | src/lib.rs:104-106 | none exactly past the end, otherwise the component at that index |
| ShebangTuples.ShebangTuple.First | src/lib.rs:109-111 | none exactly for the empty tuple, otherwise the first component |
| ShebangTuples.New | src/lib.rs:79-84 | the empty tuple, of length zero |
| ShebangTuples.FromVec | src/lib.rs:86-91 | `into_vec` gives back the vector and the length is the vector's |
| ShebangTuples.AccessorsAgree | src/lib.rs:104-116 | `first` is `get(0)`; `from_vec` and `into_vec` are inverse in both directions |
| ShebangTuples.ListingsAgree | src/lib.rs:156-170 | the listing built from the back, as the display loop does, equals the one built from the front |
| ShebangTuples.Display | src/lib.rs:156-170 | the loop writes the Python tuple text of the components |
| ShebangTuples.RenderingShapes | src/lib.rs:156-170 | `()` for no component, `('x',)` for one, `('a', 'b', ...)` for more |
| ShebangParser.FirstLine | src/lib.rs:835 | `read_until(b'\n')`: a prefix, empty only for empty input, ending at the first newline when there is one and the whole input otherwise |
| ShebangParser.StripLineEnd | src/lib.rs:839-845 | the result is a prefix of the line; a CRLF ending loses both bytes, a lone LF or CR ending loses one byte, any other line is unchanged |
| ShebangParser.Truncate | src/lib.rs:856-858 | a prefix of at most 1024 bytes, the whole line when it is shorter |
| ShebangParser.TrimKeepsAllowed | src/lib.rs:867-874 | trimming keeps a text of allowed characters allowed |
| ShebangParser.MarkerSurvivesDecoding | src/lib.rs:861-867 | the `#!` bytes decode to `#!`, and the rest of the line decodes to the rest of the text |
| ShebangParser.ShebangText | src/lib.rs:835-867 | a text exactly when the first line starts with `#!` and its first 1024 bytes decode; then the trimmed text after `#!` |
| ShebangParser.Command | src/lib.rs:882-898 | the command is a suffix of the parts and, unless the line runs through `/usr/bin/env`, all of them |
| ShebangParser.ReadFirstLine | src/lib.rs:834-848 | the line that `read_until` and the two pops leave |
| ShebangParser.CheckChars | src/lib.rs:870-874 | the scan succeeds exactly when every character is ASCII and no control but tab |
| ShebangParser.ParseShebang | src/lib.rs:828-908 | the method follows the source step by step and returns what `Parsed` specifies |
| ShebangParser.ReadShebangText | src/lib.rs:834-867 | reading, the `#!` test, truncation, decoding and trimming give `ShebangText` |
| ShebangParser.UnwrapEnv | src/lib.rs:882-898 | the `env` and `env -S` handling gives `Command` |
| ShebangParser.NothingReadGivesEmpty | src/lib.rs:835-847 | a read error and an empty stream give the empty tuple |
| ShebangParser.MarkerRequired | src/lib.rs:851-853 | input that does not start with `#!` gives the empty tuple |
| ShebangParser.CommandEmptyIff | src/lib.rs:882-902 | the command is empty exactly for no parts, a bare `/usr/bin/env` and a bare `/usr/bin/env -S` |
| ShebangParser.CommandOfEnv | src/lib.rs:882-895 | after `/usr/bin/env` the command is the rest, without a leading `-S` |
| ShebangParser.PrintableTokenIsWord | src/lib.rs:870-877 | a printable token holds no whitespace |
| ShebangParser.WordsOfAllowedArePrintable | src/lib.rs:870-877 | the words of allowed text are printable ASCII tokens |
| ShebangParser.CommandKeepsPrintable | src/lib.rs:882-898 | unwrapping `env` keeps the command printable |
| ShebangParser.ComponentsArePrintable | src/lib.rs:828-908 | every component of any parsed shebang is a non-empty token of printable ASCII |
| ShebangParser.LineOfUnbroken | src/lib.rs:834-845 | a first line free of line breaks, followed by the end of input, LF or CRLF, is read without its line ending |
| ShebangParser.LineOfEnd | src/lib.rs:834-845 | input without line breaks is its own first line |
| ShebangParser.LineOfLf | src/lib.rs:834-845 | a line ended by LF loses the LF |
| ShebangParser.LineOfCrLf | src/lib.rs:834-845 | a line ended by CRLF loses both bytes |
| ShebangParser.MarkedLine | src/lib.rs:851 | `#!` and ASCII text as bytes: marked, ASCII, free of line breaks, and decoding to `#!` and the text |
| ShebangParser.IsPrintableLine | src/lib.rs:870-874 | a line of printable ASCII and tabs is ASCII and passes the character scan |
| ShebangParser.ParsesAsciiLine | src/lib.rs:828-908 | a `#!` line of printable ASCII within the limit parses to the command of its words |
| ShebangParser.TextOfMarkedLine | src/lib.rs:835-867 | the text of a marked ASCII line is its trimmed text after `#!` |
| ShebangParser.BlankShebangGivesEmpty | src/lib.rs:1223-1226 | `#!` followed by only spaces and tabs gives the empty tuple |
| ShebangParser.JoinedTokensAreLineChars | src/lib.rs:870-877 | printable tokens joined by single spaces form a printable line |
| ShebangParser.TokenLine | src/lib.rs:1061-1083 | the bytes `#!` and tokens joined by spaces, written as a marked line |
| ShebangParser.ParsesTokens | src/lib.rs:1061-1083 | a `#!` line of printable tokens parses to the command of exactly those tokens |
| ShebangParser.SurroundingBlanksIgnored | src/lib.rs:1076-1079 | spaces and tabs after `#!` and before the line end change nothing |
| ShebangParser.ControlByteRejected | src/lib.rs:870-874 | a control byte other than 0x09-0x0D (tab, LF, VT, FF, CR) within the first 1024 bytes of a marked line rejects it |
| ShebangParser.ControlByteInDecoded | src/lib.rs:861-874 | such a byte (a control byte other than 0x09-0x0D) survives decoding and trimming as a disallowed character |
| ShebangParser.WhitespaceControlRejected | src/lib.rs:867-874 | a VT, FF or CR byte between two printable ASCII bytes of the text after `#!`, within the first 1024 bytes of an ASCII-started line, rejects it |
| ShebangParser.WhitespaceControlInDecoded | src/lib.rs:861-874 | such a byte survives decoding and trimming as a disallowed character |
| ShebangParser.EnclosedControlInAscii | src/lib.rs:861-874 | in well-formed bytes with an ASCII start, a VT, FF or CR between two printable bytes leaves a disallowed character after trimming |
| ShebangParser.EnclosedControlSurvivesTrim | src/lib.rs:867-874 | a VT, FF or CR between two printable characters is not trimmed and fails the scan |
| ShebangParser.TextRejected | src/lib.rs:861-874 | a missing or disallowed shebang text gives the empty tuple |
| ShebangParser.DisallowedSurvivesTrim | src/lib.rs:867-874 | trimming never removes a disallowed character that is not whitespace |
| ShebangParser.NeverUtf8ByteRejected | src/lib.rs:856-864 | a byte foreign to UTF-8 within the first 1024 bytes rejects the line |
| ShebangParser.TruncationSplittingCharacterRejected | src/lib.rs:856-864 | a long line whose byte 1024 starts a two-byte character is rejected, because truncation comes before decoding |
| ShebangParser.NoMarkerExample | src/lib.rs:1375-1391 | `F9 93 01 42 CD` gives the empty tuple |
| ShebangParser.InvalidUtf8Example | src/lib.rs:1094-1100 | `#!` followed by bytes that are not UTF-8 gives the empty tuple |
| ShebangParser.NulBytesExample | src/lib.rs:1375-1391 | `#!` followed by NUL bytes gives the empty tuple |
| ShebangParser.DirectCommand | src/lib.rs:1325-1350 | a command not run through env is kept whole (`#!/usr/bin/python`, `#!/usr/bin/foo  python`) |
| ShebangParser.EnvTokensPrintable | src/lib.rs:882-886 | `/usr/bin/env` and `-S` are printable tokens |
| ShebangParser.PrependToken | src/lib.rs:882-886 | a printable token in front of printable tokens keeps them printable |
| ShebangParser.EnvCommand | src/lib.rs:1061-1067 | `#!/usr/bin/env python` parses to the tokens after `env` |
| ShebangParser.EnvSplitCommand | src/lib.rs:1070-1073 | `#!/usr/bin/env -S python -u` parses to the tokens after `-S` |
| ShebangParser.BareEnv | src/lib.rs:1325-1368 | `#!/usr/bin/env` and `#!/usr/bin/env -S` alone give the empty tuple |
| ShebangParser.NoBreakSpaceLine | src/lib.rs:861-867 | a marked ASCII line followed by U+00A0 has no line break and decodes with the no-break space at its end |
| ShebangParser.NoBreakSpaceAfterAscii | src/lib.rs:861-864 | ASCII bytes and then U+00A0 decode to the ASCII text and U+00A0 |
| ShebangParser.TrailingNoBreakSpaceIgnored | src/lib.rs:867 | a trailing no-break space is trimmed as Unicode whitespace and changes nothing |
| ShebangParser.NoBreakSpaceText | src/lib.rs:861-867 | a marked line with a trailing no-break space has the trimmed ASCII text as its shebang text |
| ShebangParser.NoBreakSpaceTrimmed | src/lib.rs:867 | trimming removes the trailing U+00A0 |
| ShebangParser.ShebangTextOf | src/lib.rs:851-867 | a marked first line within the limit that decodes to `s` gives the trimmed text of `s` after `#!` |
| ContentSniffer.TextCharsComplement | src/lib.rs:731-738 | the text-byte set is exactly the complement of NUL to ACK, SO to SUB, FS to US and DEL |
| ContentSniffer.Chunk | src/lib.rs:727-728 | one read delivers the first 1024 bytes, or all of a shorter input |
| ContentSniffer.IsText | src/lib.rs:726-744 | an error exactly when the read fails; otherwise true exactly when none of the first 1024 bytes is a binary byte |
| ContentSniffer.EmptyIsText | src/lib.rs:1038-1042 | the empty input is text |
| ContentSniffer.BinaryByteMakesBinary | src/lib.rs:740-742 | one binary byte within the first 1024 makes the input binary |
| ContentSniffer.BinaryDataExamples | src/lib.rs:1038-1057 | `hello\x00world`, and any input with a NUL in its first 1024 bytes, and the random bytes of the tests are binary |
| ContentSniffer.OnlyFirstChunkMatters | src/lib.rs:727-742 | bytes after the first 1024 are never looked at |
| ContentSniffer.ElfHeaderIsBinary | src/lib.rs:1052-1055 | the start of an ELF header is binary |
| ContentSniffer.EncodeCharIsText | src/lib.rs:731-738 | a character's encoding holds a binary byte only when it is an ASCII binary character |
| ContentSniffer.EncodedTextIsText | src/lib.rs:1045-1049 | any UTF-8 text free of the binary control characters is text |
| InterpreterResolver.KeyCutAtMost | src/lib.rs:641-661 | the longest dot-cut of the name that is a table key, up to a length bound |
| InterpreterResolver.TagsFromInterpreter | src/lib.rs:641-661 | the loop returns what `Resolve` specifies for the last path segment |
| InterpreterResolver.KeyCutsOfPrefix | src/lib.rs:654-655 | below a dot, the name and its cut at that dot have the same cuts |
| InterpreterResolver.SkipsDotFreeTail | src/lib.rs:654-655 | after a miss, no cut lies beyond the last dot |
| InterpreterResolver.NoDotNoCut | src/lib.rs:654-656 | a dot-free name that is no key has no key among its cuts |
| InterpreterResolver.ResolveIsLongestKey | src/lib.rs:645-660 | trying shorter and shorter versions finds the tags of the longest dot-cut that is a key, and none when there is none |
| InterpreterResolver.EmptyIffNoKey | src/lib.rs:641-661 | the answer is empty exactly when no dot-cut of the last segment is a key |
| InterpreterResolver.DirectoryIgnored | src/lib.rs:643 | the directories in front of the name do not matter |
| InterpreterResolver.NoStructuralTags | src/lib.rs:641-661 | an interpreter never contributes a type, mode or encoding tag |
| InterpreterResolver.ResolveStep | src/lib.rs:653-656 | a miss cuts at the last dot and tries again |
| InterpreterResolver.ResolveHit | src/lib.rs:648-651 | a hit is returned as it is |
| InterpreterResolver.PythonVersionExample | src/lib.rs:1010-1018 | `python3.11.2` resolves through `python3.11` to `python3` |
| InterpreterResolver.PythonMinorVersionExample | src/lib.rs:1010-1018 | `python3.11` resolves to `python3` |
| InterpreterResolver.PhpVersionExample | src/lib.rs:1010-1018 | `php8.1` resolves to `php8` |
| InterpreterResolver.DirectHitsExamples | src/lib.rs:1003-1007 | `node`, `nodejs`, `php8` and `bash` are direct hits |
| InterpreterResolver.BashInAnyDirectory | src/lib.rs:1021-1025 | `/.../bash` gets `shell` and `bash` in any directory |
| InterpreterResolver.NodeInAnyDirectory | src/lib.rs:1021-1025 | `/.../node` gets `javascript` in any directory |
| InterpreterResolver.UnknownExamples | src/lib.rs:1028-1034 | the empty name and `unknown-interpreter` get no tags |
| FilenameClassifier.NameExtension | src/lib.rs:593 | `Path::extension`: none for `..` and names with no dot after the first character, else the text after the last dot |
| FilenameClassifier.NameParts | src/lib.rs:584 | the whole name is tried first, then the pieces of the dot split |
| FilenameClassifier.FirstHit | src/lib.rs:584-590 | the first part with a non-empty entry, with no hit before it; none when no part hits |
| FilenameClassifier.FirstHitAt | src/lib.rs:584-590 | a hit preceded only by misses is the first hit |
| FilenameClassifier.TagsFromFilename | src/lib.rs:580-608 | the loop with its `break`, then the extension lookup, gives the first name part's tags united with the extension's |
| FilenameClassifier.LookUpExtension | src/lib.rs:593-605 | the lower-cased extension in the main table, or in the need-binary-check table when the main table misses |
| FilenameClassifier.ExtensionTableFirst | src/lib.rs:593-605 | with valid tables, an extension in the main table gets its entry, and one outside it gets the need-binary-check entry |
| FilenameClassifier.ExtensionEncodingIffMainTable | src/lib.rs:593-605 | with valid tables, the extension contributes an encoding tag exactly when the main table has it |
| FilenameClassifier.NameTagsEmptyIff | src/lib.rs:584-590 | with valid tables, no name tags exactly when no part is a key of the name table |
| FilenameClassifier.ExtensionOfDotted | src/lib.rs:593 | the extension of `stem.ext` is `ext` |
| FilenameClassifier.SplitOfDotted | src/lib.rs:584 | `stem.ext` splits into `stem` and `ext` |
| FilenameClassifier.ExtensionCaseIgnored | src/lib.rs:968-973 | extensions differing only in ASCII case get the same tags |
| FilenameClassifier.UnnamedDottedHasNoNameTags | src/lib.rs:584-590 | `stem.ext` gets no name tags when neither it nor its pieces are names |
| FilenameClassifier.UnnamedDotted | src/lib.rs:946-951 | such a name gets the tags of its lower-cased extension only |
| FilenameClassifier.UnnamedCaseIgnored | src/lib.rs:968-973 | `image.JPG` and `image.jpg` get the same filename tags |
| FilenameClassifier.WholeNameFirst | src/lib.rs:976-980 | a whole-name hit wins over its pieces and is united with the extension tags |
| FilenameClassifier.NameAndExtensionEncodingsCombine | src/lib.rs:584-605 | a name entry with `text` and an extension entry with `binary` both reach the result |
| FilenameClassifier.EncodingConflictExample | src/lib.rs:584-605 | valid tables exist for which a filename gets both `text` and `binary` |
| FileClassifier.FileTypeTags | src/lib.rs:378-399 | none exactly for a regular file (or FIFO or device), else one type tag, never `file` |
| FileClassifier.IsExecutable | src/lib.rs:405-411 | executable exactly when one of the owner, group or other execute bits is set |
| FileClassifier.ShebangFromFile | src/lib.rs:783-798 | the empty tuple without execute bits; an I/O error exactly when an executable file cannot be opened; otherwise `parse_shebang` of the file's bytes |
| FileClassifier.CustomTags | src/lib.rs:316-323 | the custom entry of the lower-cased extension, none exactly when there is no table, no extension or no entry |
| FileClassifier.FileIsText | src/lib.rs:696-699 | an I/O error exactly when the file cannot be opened, otherwise `is_text` of its bytes |
| FileClassifier.ContentEncoding | src/lib.rs:454-467 | nothing when an encoding tag is present; else `text` or `binary` as `is_text` decides, or an I/O error exactly for a file that cannot be opened |
| FileClassifier.WithEncoding | src/lib.rs:297-300 | the tags with at most one of `text` and `binary` added, exactly one when none was present |
| FileClassifier.ParseShebangFromFile | src/lib.rs:783-798 | the method returns what `ShebangFromFile` specifies |
| FileClassifier.ShebangInterpreter | src/lib.rs:332-337 | the interpreter tags of the first shebang component; none on an error or an empty shebang |
| FileClassifier.AnalyzeFilenameAndShebang | src/lib.rs:428-449 | filename tags first, the shebang only for an executable file without them |
| FileClassifier.TagsFromPath | src/lib.rs:508-548 | the step-by-step pipeline returns what `PathTags` specifies |
| FileClassifier.FileIdentifier.constructor | src/lib.rs:215-221 | every analysis enabled and no custom table |
| FileClassifier.FileIdentifier.SkipContentAnalysis | src/lib.rs:227-230 | turns content analysis off and changes nothing else |
| FileClassifier.FileIdentifier.SkipShebangAnalysis | src/lib.rs:236-239 | turns shebang analysis off and changes nothing else |
| FileClassifier.FileIdentifier.WithCustomExtensions | src/lib.rs:245-251 | replaces the custom table and changes nothing else |
| FileClassifier.FileIdentifier.Identify | src/lib.rs:256-258 | classifies under the identifier's settings |
| FileClassifier.FileIdentifier.IdentifyWithConfig | src/lib.rs:260-303 | the pipeline returns what `Classify` specifies for the current settings |
| FileClassifier.FileIdentifier.AnalyzeFilenameAndShebangConfigured | src/lib.rs:305-342 | custom entry first, then filename tags, then the shebang when allowed |
| FileClassifier.FileIdentifier.LookUpCustomExtension | src/lib.rs:316-323 | the custom table lookup gives `CustomTags` |
| FileClassifier.DefaultIdentifierIsTagsFromPath | src/lib.rs:253-258 | `FileIdentifier::new().identify(p)` equals `tags_from_path(p)` for every filesystem and path |
| FileClassifier.NotFoundIffMissing | src/lib.rs:265-272 | `PathNotFound` exactly for a path without metadata; every other failure is an I/O error |
| FileClassifier.NonRegularEntries | src/lib.rs:1139-1144 | directories, symlinks and sockets get their type tag and nothing else |
| FileClassifier.RegularFileHasFileAndModeTag | src/lib.rs:279-289 | a classified regular file carries `file` and the mode tag its execute bits call for |
| FileClassifier.FilenameTagsFreeOfFileTags | src/lib.rs:580-608 | filename tags hold no type or mode tag when the tables hold none |
| FileClassifier.ShebangTagsFreeOfFileTags | src/lib.rs:332-337 | the shebang fallback contributes no type or mode tag |
| FileClassifier.NameTagsFreeOfFileTags | src/lib.rs:305-342 | neither name analysis contributes a type or mode tag when no table holds one |
| FileClassifier.ClassifyRegular | src/lib.rs:279-302 | a regular file's tags are those found before content analysis with at most `text` or `binary` added, and exactly one added when content analysis runs and none was present |
| FileClassifier.RegularFileTypeAndMode | src/lib.rs:279-289 | a regular file has `file` as its only type tag and exactly one mode tag, `executable` exactly when an execute bit is set |
| FileClassifier.RegularTagsTypeAndMode | src/lib.rs:279-289 | the type and mode tags of the regular-file tags, whichever encoding is added |
| FileClassifier.ContentNotAnalysed | src/lib.rs:296-300 | with content analysis off, or an encoding tag found, the file's content is not read for its encoding |
| FileClassifier.ContentAnalysed | src/lib.rs:454-467 | otherwise `text` or `binary` is added as `is_text` decides, and an unopenable file is an I/O error |
| FileClassifier.EncodingTagPresent | src/lib.rs:296-300 | with content analysis on, a classified regular file has an encoding tag |
| FileClassifier.ExactlyOneEncodingFromContent | src/lib.rs:454-467 | when the name gave no encoding, content analysis leaves exactly one |
| FileClassifier.OneEncodingAdded | src/lib.rs:458-463 | adding `text` or `binary` to tags without an encoding leaves exactly one |
| FileClassifier.CustomExtensionWins | src/lib.rs:319-322 | a custom hit is the whole answer: neither the name tables nor the shebang count |
| FileClassifier.ContentReadOnlyAsFallback | src/lib.rs:327-338 | unless it is the shebang fallback, the name analysis gives the same tags whatever the file holds |
| FileClassifier.ShebangNeedsExecuteBit | src/lib.rs:789-793 | a file without execute bits contributes no shebang tags |
| FileClassifier.NonExecutableModeExample | src/lib.rs:789-793 | mode `0o644` gives the empty shebang whatever the file holds |
| FileClassifier.ShebangFallbackTags | src/lib.rs:330-337 | an executable file with an unrecognised name gets the tags of its shebang |
| FileClassifier.ShebangTagsOfScript | src/lib.rs:1122-1137 | a script's shebang tags are those of the interpreter its first component names |

## Left out

- Real I/O is not modelled. The filesystem is a map, and a read is a byte
  sequence or a failure. `is_text` is modelled as one `read` that delivers
  all available bytes up to 1024; a short read that delivers fewer is not
  considered.
- A read error after a successful open is not modelled for
  `parse_shebang_from_file` and `file_is_text`. A file either cannot be
  opened or is read as a whole.
- `fs::metadata` (which follows symlinks) and `symlink_metadata` are the
  same lookup in the model. `parse_shebang_from_file` is only reached for a
  regular file, so the difference does not show.
- The non-Unix branch of `analyze_permissions` (extensions `exe`, `bat`,
  `cmd`) is not modelled; the Unix permission test is.
- FIFOs, block and character devices are `OtherEntry` and take the
  regular-file path, as the source does. Their reads are modelled like those
  of other files.
- Path handling is reduced to strings:
  - `Path::file_name()` is the entry's optional name;
  - `to_string_lossy` and path normalisation are not modelled;
  - the error variants `InvalidPath` and `InvalidUtf8` are never produced.
- Str.LowerAscii: `to_lowercase` is modelled for ASCII letters only. Other
  Unicode case mappings are left out.
- Tags are modelled as a `set<string>`. The order in which `HashSet`
  iterates and the `extend` order play no role in the result.
- The contents of the extension and name tables (`src/extensions.rs`) are not
  part of this model. They are the parameter `Tables`, constrained by `Valid`,
  the four table tests.
- Extensions.TablesFreeOfFileTags: the lemmas that need tables free of type
  and mode tags require it. The repository's tests do not check this.
- The `smallvec` containers, `Box<[String]>`, `iter`/`into_iter` and
  `Deref` of `ShebangTuple` are plain sequences. `Index` out of range panics
  in the source; `At` requires an index in range.
- The command-line program, `src/bin/main.rs`, is not part of this model.
- WhitespaceControlRejected: a VT, FF or CR byte inside the shebang text is
  stated to reject the line only when the line is ASCII up to the later of
  the two printable bytes around it, and those two are printable ASCII. The
  same outcome for text with multi-byte characters or other non-whitespace
  neighbours is not stated.

Points where the model follows the code rather than the documentation:

- `parse_shebang` tests for `#!` before it truncates to 1024 bytes, and
  truncates before it decodes. A long line cut inside a multi-byte character
  is rejected (ShebangParser.TruncationSplittingCharacterRejected).
- The table tests give each `NAMES` and `EXTENSIONS` entry exactly one
  encoding. `tags_from_filename` still unites a name entry with an extension
  entry, so one file name can carry both `text` and `binary` when they
  disagree (FilenameClassifier.EncodingConflictExample). The tests do not
  exclude this.
- The `tags_from_path` examples in the documentation are stated for any
  script (FileClassifier.ShebangTagsOfScript, ShebangParser.EnvCommand)
  rather than for one concrete file.
