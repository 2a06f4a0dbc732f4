/**
 * `tags_from_filename`: the tags of the first name part found in the name
 * table, united with the tags of the lower-cased extension.
 */
module FilenameClassifier {
  import opened Wrappers
  import opened Str
  import opened Tags
  import opened Extensions

  /**
   * `Path::extension` of a file name: nothing for `..` and for a name with no
   * dot after its first character; otherwise the text after the last dot,
   * which may be empty (`foo.`).
   */
  function NameExtension(name: string): (r: Option<string>)
    ensures r.None? <==> name == ".." || forall i :: 0 < i < |name| ==> name[i] != '.'
    ensures r.Some? ==>
      var k := |name| - |r.value| - 1;
      && 0 < k && name[k] == '.' && r.value == name[k + 1..]
      && forall i :: k < i < |name| ==> name[i] != '.'
  {
    if name == ".." then None
    else match LastIndexOf(name, '.')
      case None => None
      case Some(pos) =>
        if pos == 0 then None
        else
          assert forall i :: pos < i < |name| ==> name[i] == name[pos + 1..][i - pos - 1];
          Some(name[pos + 1..])
  }

  /** The extension of the last path component. */
  function Extension(filename: string): Option<string>
  {
    NameExtension(BaseName(filename))
  }

  /** The extension table first; the need-binary-check table only when it misses. */
  function ExtensionTags(t: Tables, filename: string): TagSet
  {
    match Extension(filename)
    case None => {}
    case Some(ext) =>
      var lower := LowerAscii(ext);
      var main := Lookup(t.extensions, lower);
      if main != {} then main else Lookup(t.needBinaryCheck, lower)
  }

  /** The name parts tried in turn: the whole name, then each piece of `split('.')`. */
  function NameParts(filename: string): (parts: seq<string>)
    ensures |parts| >= 2 && parts[0] == filename
  {
    [filename] + Split(filename, '.')
  }

  /** Index of the first part with a non-empty entry in `table`. */
  function FirstHit(table: Table, parts: seq<string>): (r: Option<nat>)
    ensures r.Some? ==>
      && r.value < |parts| && Lookup(table, parts[r.value]) != {}
      && forall j :: 0 <= j < r.value ==> Lookup(table, parts[j]) == {}
    ensures r.None? ==> forall j :: 0 <= j < |parts| ==> Lookup(table, parts[j]) == {}
  {
    if parts == [] then None
    else if Lookup(table, parts[0]) != {} then Some(0)
    else match FirstHit(table, parts[1..])
      case None => None
      case Some(i) => Some(i + 1)
  }

  /** A part with an entry after parts without one is the first hit. */
  lemma FirstHitAt(table: Table, parts: seq<string>, i: nat)
    requires i < |parts| && Lookup(table, parts[i]) != {}
    requires forall j :: 0 <= j < i ==> Lookup(table, parts[j]) == {}
    ensures FirstHit(table, parts) == Some(i)
  {
  }

  /** The tags of the first name part that has an entry. */
  function NameTags(t: Tables, filename: string): TagSet
  {
    var parts := NameParts(filename);
    match FirstHit(t.names, parts)
    case None => {}
    case Some(i) => Lookup(t.names, parts[i])
  }

  function FilenameTags(t: Tables, filename: string): TagSet
  {
    NameTags(t, filename) + ExtensionTags(t, filename)
  }

  /** `tags_from_filename`, with its `for` loop over the name parts and its `break`. */
  method TagsFromFilename(t: Tables, filename: string) returns (tags: TagSet)
    ensures tags == FilenameTags(t, filename)
  {
    tags := {};
    var parts := NameParts(filename);
    for i := 0 to |parts|
      invariant tags == {}
      invariant forall j :: 0 <= j < i ==> Lookup(t.names, parts[j]) == {}
    {
      var nameTags := Lookup(t.names, parts[i]);
      if nameTags != {} {
        tags := nameTags;
        FirstHitAt(t.names, parts, i);
        break;
      }
    }
    var extTags := LookUpExtension(t, filename);
    tags := tags + extTags;
  }

  /** The extension half of `tags_from_filename`. */
  method LookUpExtension(t: Tables, filename: string) returns (tags: TagSet)
    ensures tags == ExtensionTags(t, filename)
  {
    tags := {};
    var extension := Extension(filename);
    if extension.Some? {
      var lower := LowerAscii(extension.value);
      var extTags := Lookup(t.extensions, lower);
      if extTags != {} {
        tags := extTags;
      } else {
        var binaryCheckTags := Lookup(t.needBinaryCheck, lower);
        if binaryCheckTags != {} {
          tags := binaryCheckTags;
        }
      }
    }
  }

  // ---------------------------------------------------------------------
  // Properties
  // ---------------------------------------------------------------------

  /** With valid tables, the main table decides whenever it has the extension as a key. */
  lemma ExtensionTableFirst(t: Tables, filename: string)
    requires Valid(t)
    ensures match Extension(filename)
      case None => ExtensionTags(t, filename) == {}
      case Some(ext) =>
        ExtensionTags(t, filename) ==
          if LowerAscii(ext) in t.extensions then t.extensions[LowerAscii(ext)]
          else Lookup(t.needBinaryCheck, LowerAscii(ext))
  {
    match Extension(filename) {
      case None =>
      case Some(ext) =>
        LookupEmptyIffMissing(t.extensions, LowerAscii(ext));
    }
  }

  /**
   * The extension tags name an encoding exactly when the lower-cased
   * extension is a key of the main table: the need-binary-check entries leave
   * the encoding to the content.
   */
  lemma ExtensionEncodingIffMainTable(t: Tables, filename: string)
    requires Valid(t)
    ensures HasEncodingTag(ExtensionTags(t, filename)) <==>
      Extension(filename).Some? && LowerAscii(Extension(filename).value) in t.extensions
  {
    ExtensionTableFirst(t, filename);
    match Extension(filename) {
      case None =>
      case Some(ext) =>
        var lower := LowerAscii(ext);
        if lower in t.extensions {
          assert OneEncoding(t.extensions[lower]);
          assert IsEncodingTag(Text) && IsEncodingTag(Binary);
        } else if lower in t.needBinaryCheck {
          assert NoEncoding(t.needBinaryCheck[lower]);
        }
    }
  }

  /** The name tags are empty exactly when no name part has an entry. */
  lemma NameTagsEmptyIff(t: Tables, filename: string)
    requires Valid(t)
    ensures NameTags(t, filename) == {} <==>
      forall j :: 0 <= j < |NameParts(filename)| ==> NameParts(filename)[j] !in t.names
  {
    var parts := NameParts(filename);
    forall j | 0 <= j < |parts|
      ensures Lookup(t.names, parts[j]) == {} <==> parts[j] !in t.names
    {
      LookupEmptyIffMissing(t.names, parts[j]);
    }
  }

  /** A name made of a dot-free stem and a dot-free extension has that extension. */
  lemma ExtensionOfDotted(stem: string, ext: string)
    requires stem != [] && '.' !in stem && '.' !in ext
    requires '/' !in stem && '/' !in ext
    ensures Extension(stem + "." + ext) == Some(ext)
  {
    var name := stem + "." + ext;
    assert BaseName(name) == name;
    assert name[|stem|] == '.';
    assert name[0] == stem[0] && stem[0] != '.';
    var r := NameExtension(name);
    assert r.Some?;
    assert name[|stem| + 1..] == ext;
  }

  /** Splitting such a name at its dots gives back the stem and the extension. */
  lemma SplitOfDotted(stem: string, ext: string)
    requires '.' !in stem && '.' !in ext
    ensures Split(stem + "." + ext, '.') == [stem, ext]
  {
    assert Join([stem, ext], '.') == stem + "." + ext;
    SplitJoin([stem, ext], '.');
  }

  /** The extension is matched whatever its letter case. */
  lemma ExtensionCaseIgnored(t: Tables, stem: string, ext1: string, ext2: string)
    requires stem != [] && '.' !in stem && '/' !in stem
    requires '.' !in ext1 && '/' !in ext1 && '.' !in ext2 && '/' !in ext2
    requires LowerAscii(ext1) == LowerAscii(ext2)
    ensures ExtensionTags(t, stem + "." + ext1) == ExtensionTags(t, stem + "." + ext2)
  {
    ExtensionOfDotted(stem, ext1);
    ExtensionOfDotted(stem, ext2);
  }

  /** A dotted name none of whose parts is a name key gets no name tags. */
  lemma UnnamedDottedHasNoNameTags(t: Tables, stem: string, ext: string)
    requires Valid(t)
    requires '.' !in stem && '.' !in ext
    requires stem + "." + ext !in t.names && stem !in t.names && ext !in t.names
    ensures NameTags(t, stem + "." + ext) == {}
  {
    var name := stem + "." + ext;
    SplitOfDotted(stem, ext);
    assert NameParts(name) == [name, stem, ext];
    NameTagsEmptyIff(t, name);
  }

  /** For a dotted name none of whose parts is a name key, the tags are the extension's alone. */
  lemma UnnamedDotted(t: Tables, stem: string, ext: string)
    requires Valid(t)
    requires stem != [] && '.' !in stem && '/' !in stem && '.' !in ext && '/' !in ext
    requires stem + "." + ext !in t.names && stem !in t.names && ext !in t.names
    ensures FilenameTags(t, stem + "." + ext) ==
      if LowerAscii(ext) in t.extensions then t.extensions[LowerAscii(ext)]
      else Lookup(t.needBinaryCheck, LowerAscii(ext))
  {
    var name := stem + "." + ext;
    UnnamedDottedHasNoNameTags(t, stem, ext);
    assert ExtensionTags(t, name) ==
      if LowerAscii(ext) in t.extensions then t.extensions[LowerAscii(ext)]
      else Lookup(t.needBinaryCheck, LowerAscii(ext))
    by {
      ExtensionOfDotted(stem, ext);
      ExtensionTableFirst(t, name);
    }
  }

  /**
   * Names that differ only in the letter case of the extension get the same
   * tags (`image.jpg`, `image.JPG`, `image.JpG`), when no name part of either
   * is a key of the name table.
   */
  lemma UnnamedCaseIgnored(t: Tables, stem: string, ext1: string, ext2: string)
    requires Valid(t)
    requires stem != [] && '.' !in stem && '/' !in stem
    requires '.' !in ext1 && '/' !in ext1 && '.' !in ext2 && '/' !in ext2
    requires LowerAscii(ext1) == LowerAscii(ext2)
    requires stem !in t.names && ext1 !in t.names && ext2 !in t.names
    requires stem + "." + ext1 !in t.names && stem + "." + ext2 !in t.names
    ensures FilenameTags(t, stem + "." + ext1) == FilenameTags(t, stem + "." + ext2)
  {
    UnnamedDotted(t, stem, ext1);
    UnnamedDotted(t, stem, ext2);
  }

  /**
   * A whole name that is a key of the name table (`setup.cfg`) gets that
   * entry's tags, whatever its parts or its extension would have matched.
   */
  lemma WholeNameFirst(t: Tables, filename: string)
    requires filename in t.names && t.names[filename] != {}
    ensures NameTags(t, filename) == t.names[filename]
    ensures FilenameTags(t, filename) == t.names[filename] + ExtensionTags(t, filename)
  {
    FirstHitAt(t.names, NameParts(filename), 0);
  }

  /** Name tags and extension tags are united, so a file name can carry both encodings. */
  lemma NameAndExtensionEncodingsCombine(t: Tables, stem: string, ext: string)
    requires stem != [] && '.' !in stem && '/' !in stem && '.' !in ext && '/' !in ext
    requires stem + "." + ext in t.names && Text in t.names[stem + "." + ext]
    requires LowerAscii(ext) in t.extensions && Binary in t.extensions[LowerAscii(ext)]
    ensures Text in FilenameTags(t, stem + "." + ext) && Binary in FilenameTags(t, stem + "." + ext)
  {
    var name := stem + "." + ext;
    WholeNameFirst(t, name);
    ExtensionOfDotted(stem, ext);
  }

  /** The tables of `ConflictExample`: `name` is a name key for `text`, its extension a key for `binary`. */
  function ConflictTables(name: string, ext: string): Tables
  {
    Tables(map[LowerAscii(ext) := {Binary}], map[], map[name := {Text}])
  }

  /**
   * The table tests do not rule out a name whose name entry and extension
   * entry disagree: any dotted name, `x.y` say, then gets both `text` and
   * `binary` under valid tables.
   */
  lemma EncodingConflictExample(stem: string, ext: string)
    requires stem != [] && '.' !in stem && '/' !in stem && '.' !in ext && '/' !in ext
    ensures Valid(ConflictTables(stem + "." + ext, ext))
    ensures Text in FilenameTags(ConflictTables(stem + "." + ext, ext), stem + "." + ext)
    ensures Binary in FilenameTags(ConflictTables(stem + "." + ext, ext), stem + "." + ext)
  {
    var name := stem + "." + ext;
    var t := ConflictTables(name, ext);
    assert Valid(t) by {
      assert OneEncoding(t.extensions[LowerAscii(ext)]);
      assert OneEncoding(t.names[name]);
    }
    NameAndExtensionEncodingsCombine(t, stem, ext);
  }
}
