/**
 * The interpreter table of `src/interpreters.rs`: 22 interpreter names, each
 * mapped to the language tags a script run by it gets, and its lookup.
 */
module Interpreters {
  import opened Tags

  const InterpreterTable: map<string, TagSet> := map[
    "ash" := {"shell", "ash"},
    "awk" := {"awk"},
    "bash" := {"shell", "bash"},
    "bats" := {"shell", "bash", "bats"},
    "cbsd" := {"shell", "cbsd"},
    "csh" := {"shell", "csh"},
    "dash" := {"shell", "dash"},
    "expect" := {"expect"},
    "ksh" := {"shell", "ksh"},
    "node" := {"javascript"},
    "nodejs" := {"javascript"},
    "perl" := {"perl"},
    "php" := {"php"},
    "php7" := {"php", "php7"},
    "php8" := {"php", "php8"},
    "python" := {"python"},
    "python2" := {"python", "python2"},
    "python3" := {"python", "python3"},
    "ruby" := {"ruby"},
    "sh" := {"shell", "sh"},
    "tcsh" := {"shell", "tcsh"},
    "zsh" := {"shell", "zsh"}
  ]

  /**
   * The tags listed for `interpreter`, or no tags for a name the table does not
   * know. Because no entry is empty, an empty answer means exactly "not a key",
   * and because no entry holds a type, mode or encoding tag, a hit never
   * interferes with the structural tags of a classification.
   */
  function GetInterpreterTags(interpreter: string): (tags: TagSet)
    ensures interpreter in InterpreterTable ==> tags == InterpreterTable[interpreter]
    ensures tags == {} <==> interpreter !in InterpreterTable
    ensures tags * (TypeTags + ModeTags + EncodingTags) == {}
  {
    EntriesWellFormed();
    if interpreter in InterpreterTable then InterpreterTable[interpreter] else {}
  }

  /** Every entry is non-empty and free of type, mode and encoding tags. */
  lemma EntriesWellFormed()
    ensures forall k :: k in InterpreterTable ==> InterpreterTable[k] != {}
    ensures forall k :: k in InterpreterTable ==> InterpreterTable[k] * (TypeTags + ModeTags + EncodingTags) == {}
  {
    EntriesNonEmpty();
    EntriesFreeOfGroupTags();
  }

  lemma EntriesNonEmpty()
    ensures forall k :: k in InterpreterTable ==> InterpreterTable[k] != {}
  {
  }

  lemma EntriesFreeOfGroupTags()
    ensures forall k :: k in InterpreterTable ==> InterpreterTable[k] * (TypeTags + ModeTags + EncodingTags) == {}
  {
  }
}
