/**
 * The tag vocabulary of `src/tags.rs`: the eight structural tags, the three
 * tag groups (type, mode, encoding) and their membership predicates.
 * A tag set is a plain `set<string>`; iteration order plays no role.
 */
module Tags {

  type Tag = string
  type TagSet = set<Tag>

  const Directory: Tag := "directory"
  const Symlink: Tag := "symlink"
  const Socket: Tag := "socket"
  const File: Tag := "file"
  const Executable: Tag := "executable"
  const NonExecutable: Tag := "non-executable"
  const Text: Tag := "text"
  const Binary: Tag := "binary"

  const TypeTags: TagSet := {Directory, File, Symlink, Socket}
  const ModeTags: TagSet := {Executable, NonExecutable}
  const EncodingTags: TagSet := {Binary, Text}

  /** The tags that identify what kind of filesystem entry was classified. */
  predicate IsTypeTag(tag: Tag)
    ensures IsTypeTag(tag) <==> tag == "directory" || tag == "file" || tag == "symlink" || tag == "socket"
  {
    tag in TypeTags
  }

  predicate IsModeTag(tag: Tag)
    ensures IsModeTag(tag) <==> tag == "executable" || tag == "non-executable"
  {
    tag in ModeTags
  }

  predicate IsEncodingTag(tag: Tag)
    ensures IsEncodingTag(tag) <==> tag == "text" || tag == "binary"
  {
    tag in EncodingTags
  }

  /** True when `tags` holds some encoding tag (the `any` test of analyze_content_encoding). */
  predicate HasEncodingTag(tags: TagSet)
  {
    exists tag :: tag in tags && IsEncodingTag(tag)
  }

  /** The three groups never share a tag, so a set can be split by group. */
  lemma GroupsDisjoint()
    ensures TypeTags !! ModeTags
    ensures TypeTags !! EncodingTags
    ensures ModeTags !! EncodingTags
  {
  }

  /** The eight constants are eight different strings, and the groups have 4, 2 and 2 members. */
  lemma GroupSizes()
    ensures |TypeTags| == 4 && |ModeTags| == 2 && |EncodingTags| == 2
    ensures |TypeTags + ModeTags + EncodingTags| == 8
  {
    TypeTagsSize();
    GroupsDisjoint();
    assert |TypeTags + ModeTags| == 6;
  }

  lemma TypeTagsSize()
    ensures |TypeTags| == 4
  {
    assert TypeTags == {Directory, File} + {Symlink, Socket};
  }
}
