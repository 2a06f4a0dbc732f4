/**
 * `tags_from_interpreter`: the last `/` segment of an interpreter path is
 * looked up in the interpreter table, cutting it at its last `.` until a
 * lookup hits or no dot is left.
 */
module InterpreterResolver {
  import opened Wrappers
  import opened Str
  import opened Tags
  import opened Interpreters

  /** `name[..k]` is `name` itself or `name` cut just before one of its dots. */
  predicate IsCut(name: string, k: nat)
  {
    k == |name| || (k < |name| && name[k] == '.')
  }

  /** The lookups of the source loop, starting from `current`. */
  function Resolve(current: string): (tags: TagSet)
    decreases |current|
  {
    if current == [] then {}
    else
      var hit := GetInterpreterTags(current);
      if hit != {} then hit
      else match LastIndexOf(current, '.')
        case None => {}
        case Some(pos) => Resolve(current[..pos])
  }

  /** What `tags_from_interpreter` returns. */
  function InterpreterTags(interpreter: string): TagSet
  {
    Resolve(BaseName(interpreter))
  }

  /**
   * Reference definition: the longest cut of `name`, of length at most `n`,
   * that is a key of the table, found by trying every length from `n` down.
   */
  function KeyCutAtMost(name: string, n: nat): (r: Option<nat>)
    requires n <= |name|
    ensures r.Some? ==> r.value <= n && IsCut(name, r.value) && name[..r.value] in InterpreterTable
    ensures r.Some? ==> forall k :: r.value < k <= n && IsCut(name, k) ==> name[..k] !in InterpreterTable
    ensures r.None? ==> forall k :: 0 <= k <= n && IsCut(name, k) ==> name[..k] !in InterpreterTable
    decreases n
  {
    if IsCut(name, n) && name[..n] in InterpreterTable then Some(n)
    else if n == 0 then None
    else KeyCutAtMost(name, n - 1)
  }

  /** The tags of the longest key among the cuts of `name`, or none. */
  function LongestKeyTags(name: string): TagSet
  {
    match KeyCutAtMost(name, |name|)
    case None => {}
    case Some(k) => InterpreterTable[name[..k]]
  }

  /** `tags_from_interpreter`, with its `while` loop over `current`. */
  method TagsFromInterpreter(interpreter: string) returns (tags: TagSet)
    ensures tags == InterpreterTags(interpreter)
  {
    var name := BaseName(interpreter);
    var current := name;
    while current != []
      invariant Resolve(current) == Resolve(name)
      decreases |current|
    {
      var hit := GetInterpreterTags(current);
      if hit != {} {
        return hit;
      }
      match LastIndexOf(current, '.') {
        case None =>
          break;
        case Some(pos) =>
          current := current[..pos];
      }
    }
    return {};
  }

  // ---------------------------------------------------------------------
  // The loop finds the longest key
  // ---------------------------------------------------------------------

  /** Below a dot at `pos`, `current` and its cut at `pos` have the same cuts. */
  lemma {:induction false} KeyCutsOfPrefix(current: string, pos: nat, n: nat)
    requires pos < |current| && current[pos] == '.'
    requires n <= pos
    ensures KeyCutAtMost(current, n) == KeyCutAtMost(current[..pos], n)
    decreases n
  {
    var p := current[..pos];
    assert IsCut(current, n) <==> IsCut(p, n);
    assert current[..n] == p[..n];
    if n > 0 {
      KeyCutsOfPrefix(current, pos, n - 1);
    }
  }

  /** Lengths above the last dot that are not the whole (missed) name are no cuts at all. */
  lemma {:induction false} SkipsDotFreeTail(current: string, pos: nat, n: nat)
    requires pos < n <= |current|
    requires '.' !in current[pos + 1..]
    requires current !in InterpreterTable
    ensures KeyCutAtMost(current, n) == KeyCutAtMost(current, pos)
    decreases n
  {
    if n < |current| {
      assert current[n] == current[pos + 1..][n - pos - 1];
      assert current[n] != '.';
    } else {
      assert current[..n] == current;
    }
    if n - 1 > pos {
      SkipsDotFreeTail(current, pos, n - 1);
    }
  }

  /** A name without dots has one cut: itself. */
  lemma NoDotNoCut(current: string, n: nat)
    requires '.' !in current && current !in InterpreterTable
    requires n <= |current|
    ensures KeyCutAtMost(current, n).None?
  {
    assert current[..|current|] == current;
    assert forall k :: 0 <= k < |current| ==> current[k] != '.';
  }

  /** The source's loop returns the tags of the longest dot-cut that is a key, and nothing when there is none. */
  lemma {:induction false} ResolveIsLongestKey(current: string)
    ensures Resolve(current) == LongestKeyTags(current)
    decreases |current|
  {
    if current == [] {
      assert "" !in InterpreterTable;
      assert current[..0] == "";
    } else if GetInterpreterTags(current) != {} {
      assert current[..|current|] == current;
    } else {
      assert current[..|current|] == current;
      match LastIndexOf(current, '.') {
        case None =>
          NoDotNoCut(current, |current|);
        case Some(pos) =>
          var p := current[..pos];
          ResolveIsLongestKey(p);
          SkipsDotFreeTail(current, pos, |current|);
          KeyCutsOfPrefix(current, pos, pos);
          assert |p| == pos;
          forall k | 0 <= k <= pos ensures current[..k] == p[..k] {
          }
      }
    }
  }

  /** An empty answer means that no cut of the last segment is a key, and the other way round. */
  lemma EmptyIffNoKey(interpreter: string)
    ensures InterpreterTags(interpreter) == {} <==>
      forall k :: 0 <= k <= |BaseName(interpreter)| && IsCut(BaseName(interpreter), k) ==> BaseName(interpreter)[..k] !in InterpreterTable
  {
    var name := BaseName(interpreter);
    ResolveIsLongestKey(name);
    EntriesWellFormed();
    match KeyCutAtMost(name, |name|) {
      case None =>
      case Some(k) =>
        assert InterpreterTable[name[..k]] != {};
    }
  }

  /** The directories in front of the interpreter name do not matter. */
  lemma DirectoryIgnored(dir: string, name: string)
    requires '/' !in name
    ensures InterpreterTags(dir + "/" + name) == InterpreterTags(name)
  {
    BaseNameOfPath(dir, name);
  }

  /** A resolution never contributes a type, mode or encoding tag. */
  lemma NoStructuralTags(interpreter: string)
    ensures InterpreterTags(interpreter) * (TypeTags + ModeTags + EncodingTags) == {}
  {
    var name := BaseName(interpreter);
    ResolveIsLongestKey(name);
    EntriesWellFormed();
  }

  // ---------------------------------------------------------------------
  // The documented resolutions
  // ---------------------------------------------------------------------

  /** A miss cuts at the last dot and tries again. */
  lemma ResolveStep(current: string, pos: nat)
    requires current !in InterpreterTable
    requires LastIndexOf(current, '.') == Some(pos)
    ensures Resolve(current) == Resolve(current[..pos])
  {
    EntriesWellFormed();
  }

  /** A hit is returned as is. */
  lemma ResolveHit(current: string)
    requires current in InterpreterTable
    ensures Resolve(current) == InterpreterTable[current]
  {
    EntriesWellFormed();
  }

  lemma PythonVersionExample()
    ensures Resolve("python3.11.2") == {"python", "python3"}
  {
    var s := "python3.11.2";
    assert s !in InterpreterTable;
    assert s[10] == '.' && '.' !in s[11..];
    LastIndexOfLast(s, '.', 10);
    ResolveStep(s, 10);
    assert s[..10] == "python3.11";
    PythonMinorVersionExample();
  }

  lemma PythonMinorVersionExample()
    ensures Resolve("python3.11") == {"python", "python3"}
  {
    var s := "python3.11";
    assert s !in InterpreterTable;
    assert s[7] == '.' && '.' !in s[8..];
    LastIndexOfLast(s, '.', 7);
    ResolveStep(s, 7);
    assert s[..7] == "python3";
    ResolveHit("python3");
  }

  lemma PhpVersionExample()
    ensures Resolve("php8.1") == {"php", "php8"}
  {
    var s := "php8.1";
    assert s !in InterpreterTable;
    assert s[4] == '.' && '.' !in s[5..];
    LastIndexOfLast(s, '.', 4);
    ResolveStep(s, 4);
    assert s[..4] == "php8";
    ResolveHit("php8");
  }

  lemma DirectHitsExamples()
    ensures Resolve("node") == {"javascript"} && Resolve("nodejs") == {"javascript"}
    ensures Resolve("php8") == {"php", "php8"}
    ensures Resolve("bash") == {"shell", "bash"}
  {
    ResolveHit("node");
    ResolveHit("nodejs");
    ResolveHit("php8");
    ResolveHit("bash");
  }

  /** `/bin/bash`, `/usr/bin/bash`: bash in any directory. */
  lemma BashInAnyDirectory(dir: string)
    ensures InterpreterTags(dir + "/" + "bash") == {"shell", "bash"}
  {
    DirectoryIgnored(dir, "bash");
    assert BaseName("bash") == "bash";
    ResolveHit("bash");
  }

  /** `/usr/local/bin/node`: node in any directory. */
  lemma NodeInAnyDirectory(dir: string)
    ensures InterpreterTags(dir + "/" + "node") == {"javascript"}
  {
    DirectoryIgnored(dir, "node");
    assert BaseName("node") == "node";
    ResolveHit("node");
  }

  lemma UnknownExamples()
    ensures InterpreterTags("") == {}
    ensures InterpreterTags("unknown-interpreter") == {}
  {
    assert '/' !in "unknown-interpreter";
    assert '.' !in "unknown-interpreter";
  }
}
