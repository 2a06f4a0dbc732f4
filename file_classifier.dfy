/**
 * `tags_from_path` and the `FileIdentifier` builder: classification of a
 * filesystem entry by its type, its permission bits, its name (or custom
 * extension table), its shebang and its content.
 */
module FileClassifier {
  import opened Wrappers
  import opened Utf8
  import opened Io
  import opened Str
  import opened Tags
  import opened Extensions
  import opened ShebangTuples
  import opened ShebangParser
  import opened InterpreterResolver
  import opened ContentSniffer
  import opened FilenameClassifier

  /** What `symlink_metadata` reports about an entry; FIFOs and devices are `OtherEntry`. */
  datatype Kind = DirectoryEntry | SymlinkEntry | SocketEntry | RegularEntry | OtherEntry

  /** Whether `File::open` succeeds, and what it reads. */
  datatype Content = Readable(bytes: seq<byte>) | Unopenable

  /** What the classifier can learn about a path: its metadata, last component and content. */
  datatype Entry = Entry(kind: Kind, mode: bv32, name: Option<string>, content: Content)

  /** The filesystem, by path; a missing key is a path whose metadata cannot be read. */
  type FileSystem = map<string, Entry>

  /** The three settings of a `FileIdentifier`. */
  datatype Config = Config(skipContent: bool, skipShebang: bool, custom: Option<Table>)

  function DefaultConfig(): Config
  {
    Config(false, false, None)
  }

  /** The execute bits for owner, group and others, `0o111`. */
  const ExecuteBits: bv32 := 0x49

  // ---------------------------------------------------------------------
  // The analysis steps
  // ---------------------------------------------------------------------

  /** `analyze_file_type`: a tag for directories, symlinks and sockets; nothing for the rest. */
  function FileTypeTags(kind: Kind): (r: Option<TagSet>)
    ensures r.None? <==> kind.RegularEntry? || kind.OtherEntry?
    ensures r.Some? ==> |r.value| == 1 && r.value <= TypeTags && File !in r.value
  {
    match kind
    case DirectoryEntry => Some({Directory})
    case SymlinkEntry => Some({Symlink})
    case SocketEntry => Some({Socket})
    case RegularEntry => None
    case OtherEntry => None
  }

  /** `analyze_permissions` on Unix: some execute bit is set. */
  function IsExecutable(mode: bv32): (r: bool)
    ensures r <==> mode & 0x40 != 0 || mode & 0x08 != 0 || mode & 0x01 != 0
  {
    mode & ExecuteBits != 0
  }

  /** `parse_shebang_from_file`: nothing for a file without execute bits, an error when it cannot be opened. */
  function ShebangFromFile(e: Entry): (r: Result<ShebangTuple, IdentifyError>)
    ensures !IsExecutable(e.mode) ==> r == Success(New())
    ensures r.Failure? <==> IsExecutable(e.mode) && e.content.Unopenable?
    ensures r.Failure? ==> r.error == IoError
    ensures IsExecutable(e.mode) && e.content.Readable? ==> r == Success(Parsed(Stream(e.content.bytes)))
  {
    if !IsExecutable(e.mode) then Success(New())
    else match e.content
      case Unopenable => Failure(IoError)
      case Readable(bytes) => Success(Parsed(Stream(bytes)))
  }

  /** The interpreter tags of the shebang's first component; nothing on an error or an empty shebang. */
  function ShebangTags(e: Entry): TagSet
  {
    match ShebangFromFile(e)
    case Failure(_) => {}
    case Success(t) => if t.IsEmpty() then {} else InterpreterTags(t.At(0))
  }

  /** The custom table's entry for the lower-cased extension, when there is a table and the entry exists. */
  function CustomTags(custom: Option<Table>, filename: string): (r: Option<TagSet>)
    ensures r.None? <==>
      custom.None? || Extension(filename).None? || LowerAscii(Extension(filename).value) !in custom.value
    ensures r.Some? ==> r.value == custom.value[LowerAscii(Extension(filename).value)]
  {
    match custom
    case None => None
    case Some(table) =>
      match Extension(filename)
      case None => None
      case Some(ext) =>
        var lower := LowerAscii(ext);
        if lower in table then Some(table[lower]) else None
  }

  /** `analyze_filename_and_shebang_configured`. */
  function ConfiguredNameTags(c: Config, t: Tables, e: Entry, executable: bool): TagSet
  {
    match e.name
    case None => {}
    case Some(filename) =>
      match CustomTags(c.custom, filename)
      case Some(tags) => tags
      case None =>
        var filenameTags := FilenameTags(t, filename);
        if filenameTags != {} then filenameTags
        else if executable && !c.skipShebang then ShebangTags(e)
        else {}
  }

  /** `analyze_filename_and_shebang`: the same steps without a custom table or a switch. */
  function NameAndShebangTags(t: Tables, e: Entry, executable: bool): TagSet
  {
    match e.name
    case None => {}
    case Some(filename) =>
      var filenameTags := FilenameTags(t, filename);
      if filenameTags != {} then filenameTags
      else if executable then ShebangTags(e)
      else {}
  }

  /** `file_is_text`: an error when the file cannot be opened. */
  function FileIsText(e: Entry): (r: Result<bool, IdentifyError>)
    ensures r.Failure? <==> e.content.Unopenable?
    ensures r.Failure? ==> r.error == IoError
    ensures e.content.Readable? ==> r == IsText(Stream(e.content.bytes))
  {
    match e.content
    case Unopenable => Failure(IoError)
    case Readable(bytes) => IsText(Stream(bytes))
  }

  /** `analyze_content_encoding`: `text` or `binary` unless an encoding tag is already there. */
  function ContentEncoding(e: Entry, existing: TagSet): (r: Result<TagSet, IdentifyError>)
    ensures r.Success? && HasEncodingTag(existing) ==> r.value == {}
    ensures r.Success? && !HasEncodingTag(existing) ==> r.value == {Text} || r.value == {Binary}
    ensures r.Failure? <==> !HasEncodingTag(existing) && e.content.Unopenable?
    ensures r.Failure? ==> r.error == IoError
    ensures !HasEncodingTag(existing) && e.content.Readable? ==>
      r == Success(if IsText(Stream(e.content.bytes)).value then {Text} else {Binary})
  {
    if HasEncodingTag(existing) then Success({})
    else match FileIsText(e)
      case Failure(err) => Failure(err)
      case Success(isText) => Success(if isText then {Text} else {Binary})
  }

  /** The tags of a regular file before content analysis. */
  function RegularTags(nameTags: TagSet, executable: bool): TagSet
  {
    {File} + (if executable then {Executable} else {NonExecutable}) + nameTags
  }

  /** The tags `identify_with_config` has for a regular file before content analysis. */
  function BeforeContent(c: Config, t: Tables, e: Entry): TagSet
  {
    var executable := IsExecutable(e.mode);
    RegularTags(ConfiguredNameTags(c, t, e, executable), executable)
  }

  /** `identify_with_config` under the settings `c`. */
  function Classify(c: Config, t: Tables, fs: FileSystem, path: string): Result<TagSet, IdentifyError>
  {
    if path !in fs then Failure(PathNotFound(path))
    else
      var e := fs[path];
      match FileTypeTags(e.kind)
      case Some(tags) => Success(tags)
      case None =>
        var tags := BeforeContent(c, t, e);
        if c.skipContent then Success(tags) else WithEncoding(e, tags)
  }

  /** The tags found so far and the encoding content analysis adds to them, or its error. */
  function WithEncoding(e: Entry, tags: TagSet): (r: Result<TagSet, IdentifyError>)
    ensures r.Success? ==> r.value == tags || r.value == tags + {Text} || r.value == tags + {Binary}
    ensures r.Success? && !HasEncodingTag(tags) ==> r.value == tags + {Text} || r.value == tags + {Binary}
  {
    match ContentEncoding(e, tags)
    case Failure(err) => Failure(err)
    case Success(encoding) => assert encoding == {} ==> tags + encoding == tags; Success(tags + encoding)
  }

  /** `tags_from_path`, as its own body has it. */
  function PathTags(t: Tables, fs: FileSystem, path: string): Result<TagSet, IdentifyError>
  {
    if path !in fs then Failure(PathNotFound(path))
    else
      var e := fs[path];
      match FileTypeTags(e.kind)
      case Some(tags) => Success(tags)
      case None =>
        var executable := IsExecutable(e.mode);
        var tags := RegularTags(NameAndShebangTags(t, e, executable), executable);
        WithEncoding(e, tags)
  }

  // ---------------------------------------------------------------------
  // The source's step-by-step procedures
  // ---------------------------------------------------------------------

  /** `parse_shebang_from_file`, reading through `parse_shebang`. */
  method ParseShebangFromFile(e: Entry) returns (r: Result<ShebangTuple, IdentifyError>)
    ensures r == ShebangFromFile(e)
  {
    if e.mode & ExecuteBits == 0 {
      return Success(New());
    }
    if e.content.Unopenable? {
      return Failure(IoError);
    }
    var components := ParseShebang(Stream(e.content.bytes));
    return Success(components);
  }

  /** The shebang fallback shared by both filename analyses. */
  method ShebangInterpreter(e: Entry) returns (tags: TagSet)
    ensures tags == ShebangTags(e)
  {
    tags := {};
    var parsed := ParseShebangFromFile(e);
    if parsed.Success? {
      var components := parsed.value;
      if !components.IsEmpty() {
        var interpreterTags := TagsFromInterpreter(components.At(0));
        tags := interpreterTags;
      }
    }
  }

  /** `analyze_filename_and_shebang`. */
  method AnalyzeFilenameAndShebang(t: Tables, e: Entry, executable: bool) returns (tags: TagSet)
    ensures tags == NameAndShebangTags(t, e, executable)
  {
    tags := {};
    if e.name.Some? {
      var filenameTags := TagsFromFilename(t, e.name.value);
      if filenameTags != {} {
        tags := filenameTags;
      } else if executable {
        tags := ShebangInterpreter(e);
      }
    }
  }

  /** `tags_from_path`. */
  method TagsFromPath(t: Tables, fs: FileSystem, path: string) returns (r: Result<TagSet, IdentifyError>)
    ensures r == PathTags(t, fs, path)
  {
    if path !in fs {
      return Failure(PathNotFound(path));
    }
    var e := fs[path];
    var fileTypeTags := FileTypeTags(e.kind);
    if fileTypeTags.Some? {
      return Success(fileTypeTags.value);
    }
    var tags: TagSet := {File};
    var executable := IsExecutable(e.mode);
    if executable {
      tags := tags + {Executable};
    } else {
      tags := tags + {NonExecutable};
    }
    var nameTags := AnalyzeFilenameAndShebang(t, e, executable);
    tags := tags + nameTags;
    var encoding := ContentEncoding(e, tags);
    if encoding.Failure? {
      return Failure(encoding.error);
    }
    tags := tags + encoding.value;
    return Success(tags);
  }

  /** `FileIdentifier`: the settings a builder chain has chosen. */
  class FileIdentifier {
    var skipContentAnalysis: bool
    var skipShebangAnalysis: bool
    var customExtensions: Option<Table>

    function Configuration(): Config
      reads this
    {
      Config(skipContentAnalysis, skipShebangAnalysis, customExtensions)
    }

    /** `FileIdentifier::new()`: every step enabled, no custom table. */
    constructor()
      ensures Configuration() == DefaultConfig()
    {
      skipContentAnalysis := false;
      skipShebangAnalysis := false;
      customExtensions := None;
    }

    /** `skip_content_analysis`. */
    method SkipContentAnalysis() returns (r: FileIdentifier)
      modifies this
      ensures r == this
      ensures Configuration() == old(Configuration()).(skipContent := true)
    {
      skipContentAnalysis := true;
      r := this;
    }

    /** `skip_shebang_analysis`. */
    method SkipShebangAnalysis() returns (r: FileIdentifier)
      modifies this
      ensures r == this
      ensures Configuration() == old(Configuration()).(skipShebang := true)
    {
      skipShebangAnalysis := true;
      r := this;
    }

    /** `with_custom_extensions`: replaces any earlier table. */
    method WithCustomExtensions(extensions: Table) returns (r: FileIdentifier)
      modifies this
      ensures r == this
      ensures Configuration() == old(Configuration()).(custom := Some(extensions))
    {
      customExtensions := Some(extensions);
      r := this;
    }

    /** `identify`. */
    method Identify(t: Tables, fs: FileSystem, path: string) returns (r: Result<TagSet, IdentifyError>)
      ensures r == Classify(Configuration(), t, fs, path)
    {
      r := IdentifyWithConfig(t, fs, path);
    }

    /** `identify_with_config`. */
    method IdentifyWithConfig(t: Tables, fs: FileSystem, path: string) returns (r: Result<TagSet, IdentifyError>)
      ensures r == Classify(Configuration(), t, fs, path)
    {
      if path !in fs {
        return Failure(PathNotFound(path));
      }
      var e := fs[path];
      var fileTypeTags := FileTypeTags(e.kind);
      if fileTypeTags.Some? {
        return Success(fileTypeTags.value);
      }
      var tags: TagSet := {File};
      var executable := IsExecutable(e.mode);
      if executable {
        tags := tags + {Executable};
      } else {
        tags := tags + {NonExecutable};
      }
      var nameTags := AnalyzeFilenameAndShebangConfigured(t, e, executable);
      tags := tags + nameTags;
      if !skipContentAnalysis {
        var encoding := ContentEncoding(e, tags);
        if encoding.Failure? {
          return Failure(encoding.error);
        }
        tags := tags + encoding.value;
      }
      return Success(tags);
    }

    /** `analyze_filename_and_shebang_configured`: a custom hit returns at once. */
    method AnalyzeFilenameAndShebangConfigured(t: Tables, e: Entry, executable: bool) returns (tags: TagSet)
      ensures tags == ConfiguredNameTags(Configuration(), t, e, executable)
    {
      tags := {};
      if e.name.None? {
        return;
      }
      var filename := e.name.value;
      var customTags := LookUpCustomExtension(filename);
      if customTags.Some? {
        tags := customTags.value;
        return;
      }
      var filenameTags := TagsFromFilename(t, filename);
      if filenameTags != {} {
        tags := filenameTags;
      } else if executable && !skipShebangAnalysis {
        tags := ShebangInterpreter(e);
      }
    }

    /** The custom table's entry for the lower-cased extension of `filename`. */
    method LookUpCustomExtension(filename: string) returns (r: Option<TagSet>)
      ensures r == CustomTags(customExtensions, filename)
    {
      if customExtensions.None? {
        return None;
      }
      var ext := Extension(filename);
      if ext.None? {
        return None;
      }
      var lower := LowerAscii(ext.value);
      if lower in customExtensions.value {
        return Some(customExtensions.value[lower]);
      }
      return None;
    }
  }

  // ---------------------------------------------------------------------
  // Properties
  // ---------------------------------------------------------------------

  /** `FileIdentifier::new().identify(path)` is `tags_from_path(path)`. */
  lemma DefaultIdentifierIsTagsFromPath(t: Tables, fs: FileSystem, path: string)
    ensures Classify(DefaultConfig(), t, fs, path) == PathTags(t, fs, path)
  {
    if path in fs {
      var e := fs[path];
      var executable := IsExecutable(e.mode);
      assert ConfiguredNameTags(DefaultConfig(), t, e, executable) == NameAndShebangTags(t, e, executable);
    }
  }

  /** `PathNotFound` is reported exactly for a path without metadata; every other failure is an I/O error. */
  lemma NotFoundIffMissing(c: Config, t: Tables, fs: FileSystem, path: string)
    ensures Classify(c, t, fs, path) == Failure(PathNotFound(path)) <==> path !in fs
    ensures path in fs && Classify(c, t, fs, path).Failure? ==> Classify(c, t, fs, path).error == IoError
  {
  }

  /** A directory, a symlink (dangling or not) or a socket gets its type tag and nothing else. */
  lemma NonRegularEntries(c: Config, t: Tables, fs: FileSystem, path: string)
    requires path in fs
    ensures fs[path].kind.DirectoryEntry? ==> Classify(c, t, fs, path) == Success({Directory})
    ensures fs[path].kind.SymlinkEntry? ==> Classify(c, t, fs, path) == Success({Symlink})
    ensures fs[path].kind.SocketEntry? ==> Classify(c, t, fs, path) == Success({Socket})
  {
  }

  /** A regular file (or FIFO, or device) always gets `file` and the mode tag its execute bits call for. */
  lemma RegularFileHasFileAndModeTag(c: Config, t: Tables, fs: FileSystem, path: string)
    requires path in fs && FileTypeTags(fs[path].kind).None?
    requires Classify(c, t, fs, path).Success?
    ensures File in Classify(c, t, fs, path).value
    ensures (if IsExecutable(fs[path].mode) then Executable else NonExecutable) in Classify(c, t, fs, path).value
  {
  }

  /** The filename tags carry no type or mode tag when the tables do not. */
  lemma FilenameTagsFreeOfFileTags(t: Tables, filename: string)
    requires TablesFreeOfFileTags(t)
    ensures FilenameTags(t, filename) * (TypeTags + ModeTags) == {}
  {
    var parts := NameParts(filename);
    match FirstHit(t.names, parts) {
      case None =>
      case Some(i) =>
        assert parts[i] in t.names;
    }
    match Extension(filename) {
      case None =>
      case Some(ext) =>
    }
  }

  /** The shebang fallback contributes no type or mode tag. */
  lemma ShebangTagsFreeOfFileTags(e: Entry)
    ensures ShebangTags(e) * (TypeTags + ModeTags) == {}
  {
    match ShebangFromFile(e) {
      case Failure(_) =>
      case Success(shebang) =>
        if !shebang.IsEmpty() {
          NoStructuralTags(shebang.At(0));
        }
    }
  }

  /** Neither analysis of the name contributes a type or mode tag, when no table does. */
  lemma NameTagsFreeOfFileTags(c: Config, t: Tables, e: Entry, executable: bool)
    requires TablesFreeOfFileTags(t)
    requires c.custom.Some? ==> FreeOfFileTags(c.custom.value)
    ensures ConfiguredNameTags(c, t, e, executable) * (TypeTags + ModeTags) == {}
  {
    match e.name {
      case None =>
      case Some(filename) =>
        match CustomTags(c.custom, filename) {
          case Some(tags) =>
            assert LowerAscii(Extension(filename).value) in c.custom.value;
          case None =>
            FilenameTagsFreeOfFileTags(t, filename);
            ShebangTagsFreeOfFileTags(e);
        }
    }
  }

  /** A regular file's tags are those before content analysis, with at most `text` or `binary` added. */
  lemma ClassifyRegular(c: Config, t: Tables, fs: FileSystem, path: string)
    requires path in fs && FileTypeTags(fs[path].kind).None?
    requires Classify(c, t, fs, path).Success?
    ensures var before := BeforeContent(c, t, fs[path]);
      var value := Classify(c, t, fs, path).value;
      value == before || value == before + {Text} || value == before + {Binary}
    ensures !c.skipContent && !HasEncodingTag(BeforeContent(c, t, fs[path])) ==>
      var before := BeforeContent(c, t, fs[path]);
      var value := Classify(c, t, fs, path).value;
      value == before + {Text} || value == before + {Binary}
  {
  }

  /**
   * A regular file gets `file` as its only type tag and exactly one mode tag,
   * `executable` exactly when some execute bit is set, as long as no table
   * entry carries such tags.
   */
  lemma RegularFileTypeAndMode(c: Config, t: Tables, fs: FileSystem, path: string)
    requires path in fs && FileTypeTags(fs[path].kind).None?
    requires TablesFreeOfFileTags(t)
    requires c.custom.Some? ==> FreeOfFileTags(c.custom.value)
    requires Classify(c, t, fs, path).Success?
    ensures Classify(c, t, fs, path).value * TypeTags == {File}
    ensures Classify(c, t, fs, path).value * ModeTags ==
      if IsExecutable(fs[path].mode) then {Executable} else {NonExecutable}
  {
    var e := fs[path];
    var executable := IsExecutable(e.mode);
    NameTagsFreeOfFileTags(c, t, e, executable);
    ClassifyRegular(c, t, fs, path);
    RegularTagsTypeAndMode(ConfiguredNameTags(c, t, e, executable), executable, Classify(c, t, fs, path).value);
  }

  /** The type and mode tags of the regular-file tags, whichever encoding is added. */
  lemma RegularTagsTypeAndMode(nameTags: TagSet, executable: bool, value: TagSet)
    requires nameTags * (TypeTags + ModeTags) == {}
    requires var before := RegularTags(nameTags, executable);
      value == before || value == before + {Text} || value == before + {Binary}
    ensures value * TypeTags == {File}
    ensures value * ModeTags == if executable then {Executable} else {NonExecutable}
  {
    GroupsDisjoint();
    var extra := value - RegularTags(nameTags, executable);
    assert extra <= EncodingTags;
    assert value == {File} + (if executable then {Executable} else {NonExecutable}) + nameTags + extra;
  }

  /** With content analysis off, or an encoding tag already found, the tags are those before it. */
  lemma ContentNotAnalysed(c: Config, t: Tables, fs: FileSystem, path: string)
    requires path in fs && FileTypeTags(fs[path].kind).None?
    requires c.skipContent || HasEncodingTag(BeforeContent(c, t, fs[path]))
    ensures Classify(c, t, fs, path) == Success(BeforeContent(c, t, fs[path]))
  {
    var before := BeforeContent(c, t, fs[path]);
    if !c.skipContent {
      assert ContentEncoding(fs[path], before) == Success({});
      assert before + {} == before;
    }
  }

  /**
   * Otherwise content analysis adds `text` or `binary` as `is_text` decides,
   * and a file that cannot be opened is an I/O error.
   */
  lemma ContentAnalysed(c: Config, t: Tables, fs: FileSystem, path: string)
    requires path in fs && FileTypeTags(fs[path].kind).None?
    requires !c.skipContent && !HasEncodingTag(BeforeContent(c, t, fs[path]))
    ensures fs[path].content.Unopenable? ==> Classify(c, t, fs, path) == Failure(IoError)
    ensures fs[path].content.Readable? ==>
      Classify(c, t, fs, path) == Success(BeforeContent(c, t, fs[path]) +
        if IsText(Stream(fs[path].content.bytes)).value then {Text} else {Binary})
  {
  }

  /** With content analysis on, a classified regular file always carries an encoding tag. */
  lemma EncodingTagPresent(c: Config, t: Tables, fs: FileSystem, path: string)
    requires path in fs && FileTypeTags(fs[path].kind).None?
    requires !c.skipContent && Classify(c, t, fs, path).Success?
    ensures HasEncodingTag(Classify(c, t, fs, path).value)
  {
    if !HasEncodingTag(BeforeContent(c, t, fs[path])) {
      var value := Classify(c, t, fs, path).value;
      if Text in value {
        assert IsEncodingTag(Text);
      } else {
        assert Binary in value && IsEncodingTag(Binary);
      }
    }
  }

  /** When the name gave no encoding tag, content analysis leaves exactly one. */
  lemma ExactlyOneEncodingFromContent(c: Config, t: Tables, fs: FileSystem, path: string)
    requires path in fs && FileTypeTags(fs[path].kind).None?
    requires !c.skipContent && Classify(c, t, fs, path).Success?
    requires !HasEncodingTag(BeforeContent(c, t, fs[path]))
    ensures |Classify(c, t, fs, path).value * EncodingTags| == 1
  {
    ClassifyRegular(c, t, fs, path);
    OneEncodingAdded(BeforeContent(c, t, fs[path]), Classify(c, t, fs, path).value);
  }

  /** Adding `text` or `binary` to tags without an encoding leaves exactly one. */
  lemma OneEncodingAdded(before: TagSet, value: TagSet)
    requires !HasEncodingTag(before)
    requires value == before + {Text} || value == before + {Binary}
    ensures |value * EncodingTags| == 1
  {
    assert Text !in before && Binary !in before by {
      assert IsEncodingTag(Text) && IsEncodingTag(Binary);
    }
    if Text in value {
      assert value * EncodingTags == {Text};
    } else {
      assert value * EncodingTags == {Binary};
    }
  }

  /** A custom-extension hit is the whole answer: the name table and the shebang are not consulted. */
  lemma CustomExtensionWins(c: Config, t: Tables, e: Entry, executable: bool)
    requires e.name.Some? && CustomTags(c.custom, e.name.value).Some?
    ensures ConfiguredNameTags(c, t, e, executable) == CustomTags(c.custom, e.name.value).value
  {
  }

  /**
   * The file's content is looked at only as the shebang fallback: when a
   * custom or filename tag was found, the file is not executable or shebang
   * analysis is off, any other content gives the same tags.
   */
  lemma ContentReadOnlyAsFallback(c: Config, t: Tables, e: Entry, executable: bool, other: Content)
    requires e.name.Some? ==>
      || CustomTags(c.custom, e.name.value).Some?
      || FilenameTags(t, e.name.value) != {}
      || !executable
      || c.skipShebang
    ensures ConfiguredNameTags(c, t, e, executable) == ConfiguredNameTags(c, t, e.(content := other), executable)
  {
  }

  /** The shebang of a file without execute bits is never read. */
  lemma ShebangNeedsExecuteBit(e: Entry)
    requires !IsExecutable(e.mode)
    ensures ShebangTags(e) == {}
  {
  }

  /** A file with mode `0o644` yields an empty shebang whatever it holds. */
  lemma NonExecutableModeExample(e: Entry)
    requires e.mode == 0x1A4
    ensures ShebangFromFile(e) == Success(New())
  {
  }

  /** An executable file whose name is not recognised gets the tags of its shebang. */
  lemma ShebangFallbackTags(c: Config, t: Tables, e: Entry)
    requires e.name.Some? && CustomTags(c.custom, e.name.value).None? && FilenameTags(t, e.name.value) == {}
    requires IsExecutable(e.mode) && !c.skipShebang
    ensures ConfiguredNameTags(c, t, e, true) == ShebangTags(e)
  {
  }

  /**
   * The tags of a shebang are those of the interpreter its first component
   * names; with `#!/usr/bin/env python3` that component is `python3`
   * (`ShebangParser.EnvCommand`).
   */
  lemma ShebangTagsOfScript(e: Entry)
    requires IsExecutable(e.mode)
    requires e.content.Readable? && Parsed(Stream(e.content.bytes)).components != []
    ensures ShebangTags(e) == InterpreterTags(Parsed(Stream(e.content.bytes)).components[0])
  {
    var shebang := Parsed(Stream(e.content.bytes));
    assert ShebangFromFile(e) == Success(shebang);
  }
}
