/**
 * The three lookup tables of the extension module, `EXTENSIONS`,
 * `EXTENSIONS_NEED_BINARY_CHECK` and `NAMES`. Their contents are not part of
 * this model: they are parameters, constrained by the invariants the
 * repository's table tests check.
 */
module Extensions {
  import opened Tags

  type Table = map<string, TagSet>

  datatype Tables = Tables(extensions: Table, needBinaryCheck: Table, names: Table)

  /** `get_*_tags`: the entry for `key`, or the empty set. */
  function Lookup(table: Table, key: string): (tags: TagSet)
    ensures key in table ==> tags == table[key]
    ensures key !in table ==> tags == {}
  {
    if key in table then table[key] else {}
  }

  /** The tags name exactly one of `text` and `binary`. */
  predicate OneEncoding(tags: TagSet)
  {
    (Text in tags) != (Binary in tags)
  }

  /** The tags name neither `text` nor `binary`. */
  predicate NoEncoding(tags: TagSet)
  {
    Text !in tags && Binary !in tags
  }

  /** Every entry of `table` names exactly one encoding. */
  predicate EntriesHaveOneEncoding(table: Table)
  {
    forall key :: key in table ==> OneEncoding(table[key])
  }

  /**
   * The table tests: every `EXTENSIONS` and `NAMES` entry names exactly one
   * encoding, no `EXTENSIONS_NEED_BINARY_CHECK` entry names one, and the two
   * extension tables share no key.
   */
  predicate Valid(t: Tables)
  {
    && EntriesHaveOneEncoding(t.extensions)
    && EntriesHaveOneEncoding(t.names)
    && (forall key :: key in t.needBinaryCheck ==> NoEncoding(t.needBinaryCheck[key]))
    && t.extensions.Keys !! t.needBinaryCheck.Keys
  }

  /** "Exactly one of text or binary" is a one-element intersection with the encoding group. */
  lemma OneEncodingIsSingleIntersection(tags: TagSet)
    ensures OneEncoding(tags) <==> |tags * EncodingTags| == 1
  {
    var both := tags * EncodingTags;
    GroupsDisjoint();
    if Text in tags && Binary in tags {
      assert both == {Text, Binary};
    } else if Text in tags {
      assert both == {Text};
    } else if Binary in tags {
      assert both == {Binary};
    } else {
      assert both == {};
    }
  }

  /** Lookups in a table whose entries name an encoding are empty exactly on a miss. */
  lemma LookupEmptyIffMissing(table: Table, key: string)
    requires EntriesHaveOneEncoding(table)
    ensures Lookup(table, key) == {} <==> key !in table
  {
    if key in table {
      assert OneEncoding(table[key]);
    }
  }

  /** An entry free of the file type and mode tags. */
  predicate FreeOfFileTags(table: Table)
  {
    forall key :: key in table ==> table[key] * (TypeTags + ModeTags) == {}
  }

  /**
   * The entries of the tables carry no file type or mode tag. The table
   * tests do not check this; the lemmas that need it say so.
   */
  predicate TablesFreeOfFileTags(t: Tables)
  {
    FreeOfFileTags(t.extensions) && FreeOfFileTags(t.needBinaryCheck) && FreeOfFileTags(t.names)
  }
}
