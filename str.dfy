/**
 * The handful of Rust `str` operations the classifier relies on, over
 * `string` (a sequence of Unicode scalar values): `find`/`rfind` of a
 * character, `split`, the last `/`-separated segment, ASCII lower-casing,
 * `char::is_whitespace`, `trim` and `split_whitespace`.
 */
module Str {
  import opened Wrappers

  /** Position of the first `c` in `s` (`str::find`, `<[u8]>::iter().position`). */
  function IndexOf<T(==)>(s: seq<T>, c: T): (r: Option<nat>)
    ensures r.Some? ==> r.value < |s| && s[r.value] == c && c !in s[..r.value]
    ensures r.None? <==> c !in s
  {
    if s == [] then None
    else if s[0] == c then Some(0)
    else match IndexOf(s[1..], c)
      case None => None
      case Some(i) => assert s[..i + 1] == [s[0]] + s[1..][..i]; Some(i + 1)
  }

  /** Position of the last `c` in `s` (`str::rfind`). */
  function LastIndexOf<T(==)>(s: seq<T>, c: T): (r: Option<nat>)
    ensures r.Some? ==> r.value < |s| && s[r.value] == c && c !in s[r.value + 1..]
    ensures r.None? <==> c !in s
  {
    if s == [] then None
    else if s[|s| - 1] == c then Some(|s| - 1)
    else
      var init := s[..|s| - 1];
      assert s == init + [s[|s| - 1]];
      match LastIndexOf(init, c)
      case None => None
      case Some(i) => assert s[i + 1..] == init[i + 1..] + [s[|s| - 1]]; Some(i)
  }

  /** The pieces of `s` between occurrences of `c` (`str::split` with a char pattern). */
  function Split(s: string, c: char): (pieces: seq<string>)
    ensures |pieces| >= 1
    ensures forall i :: 0 <= i < |pieces| ==> c !in pieces[i]
    decreases |s|
  {
    match IndexOf(s, c)
    case None => [s]
    case Some(i) => [s[..i]] + Split(s[i + 1..], c)
  }

  /** The pieces glued back together with `c` between neighbours. */
  function Join(pieces: seq<string>, c: char): string
  {
    if |pieces| == 0 then ""
    else if |pieces| == 1 then pieces[0]
    else pieces[0] + [c] + Join(pieces[1..], c)
  }

  /** Splitting loses nothing: rejoining the pieces gives back the input. */
  lemma {:induction false} JoinSplit(s: string, c: char)
    ensures Join(Split(s, c), c) == s
    decreases |s|
  {
    match IndexOf(s, c)
    case None =>
    case Some(i) =>
      var tail := Split(s[i + 1..], c);
      JoinSplit(s[i + 1..], c);
      assert Split(s, c) == [s[..i]] + tail;
      assert ([s[..i]] + tail)[1..] == tail;
      assert Join(Split(s, c), c) == s[..i] + [c] + Join(tail, c);
      assert s == s[..i] + [c] + s[i + 1..];
  }

  /** Splitting a join of `c`-free pieces gives back the pieces. */
  lemma {:induction false} SplitJoin(pieces: seq<string>, c: char)
    requires |pieces| >= 1
    requires forall i :: 0 <= i < |pieces| ==> c !in pieces[i]
    ensures Split(Join(pieces, c), c) == pieces
  {
    if |pieces| > 1 {
      SplitJoin(pieces[1..], c);
      SplitOfCons(pieces[0], Join(pieces[1..], c), c);
      assert pieces == [pieces[0]] + pieces[1..];
    }
  }

  /** A `c`-free piece, then `c`: the piece is split off first. */
  lemma SplitOfCons(p: string, tail: string, c: char)
    requires c !in p
    ensures Split(p + [c] + tail, c) == [p] + Split(tail, c)
  {
    var s := p + [c] + tail;
    assert s[..|p|] == p && s[|p|] == c && s[|p| + 1..] == tail;
    IndexOfFirst(s, c, |p|);
  }

  /** A `c` with none before it is the one `IndexOf` finds. */
  lemma IndexOfFirst<T>(s: seq<T>, c: T, k: nat)
    requires k < |s| && s[k] == c && c !in s[..k]
    ensures IndexOf(s, c) == Some(k)
  {
    assert c in s by { assert s[k] == c; }
    var n := IndexOf(s, c).value;
    NoneBefore(s, c, k);
    NoneBefore(s, c, n);
  }

  lemma NoneBefore<T>(s: seq<T>, c: T, k: nat)
    requires k <= |s| && c !in s[..k]
    ensures forall j :: 0 <= j < k ==> s[j] != c
  {
    forall j | 0 <= j < k ensures s[j] != c {
      assert s[..k][j] == s[j];
    }
  }

  lemma NoneAfter<T>(s: seq<T>, c: T, k: nat)
    requires k < |s| && c !in s[k + 1..]
    ensures forall j :: k < j < |s| ==> s[j] != c
  {
    forall j | k < j < |s| ensures s[j] != c {
      assert s[k + 1..][j - k - 1] == s[j];
    }
  }

  /** A `c` with none after it is the one `LastIndexOf` finds. */
  lemma LastIndexOfLast<T>(s: seq<T>, c: T, k: nat)
    requires k < |s| && s[k] == c && c !in s[k + 1..]
    ensures LastIndexOf(s, c) == Some(k)
  {
    assert c in s by { assert s[k] == c; }
    var n := LastIndexOf(s, c).value;
    NoneAfter(s, c, k);
    NoneAfter(s, c, n);
  }

  /** The text after the last `/` (the last item of `split('/')`), the whole string if it has none. */
  function BaseName(s: string): (r: string)
    ensures '/' !in r
    ensures |r| <= |s| && r == s[|s| - |r|..]
    ensures '/' in s ==> s[|s| - |r| - 1] == '/'
    ensures '/' !in s ==> r == s
  {
    match LastIndexOf(s, '/')
    case None => s
    case Some(i) => s[i + 1..]
  }

  /** Whatever leads up to the last `/` does not matter. */
  lemma BaseNameOfPath(dir: string, name: string)
    requires '/' !in name
    ensures BaseName(dir + "/" + name) == name
  {
    var s := dir + "/" + name;
    assert s[|dir|] == '/';
  }

  /** ASCII-only lower-casing of one character (`A`..`Z` become `a`..`z`). */
  function ToLowerAscii(c: char): (r: char)
    ensures !('A' <= r <= 'Z')
    ensures 'A' <= c <= 'Z' ==> r as int == c as int + 32
    ensures !('A' <= c <= 'Z') ==> r == c
  {
    if 'A' <= c <= 'Z' then (c as int + 32) as char else c
  }

  function LowerAscii(s: string): (r: string)
    ensures |r| == |s|
    ensures forall i :: 0 <= i < |s| ==> r[i] == ToLowerAscii(s[i])
  {
    seq(|s|, i requires 0 <= i < |s| => ToLowerAscii(s[i]))
  }

  /** Lower-casing is idempotent: a lower-cased string has no upper-case letters left. */
  lemma LowerAsciiIdempotent(s: string)
    ensures LowerAscii(LowerAscii(s)) == LowerAscii(s)
  {
  }

  /** `char::is_whitespace`: the Unicode White_Space property. */
  predicate IsWhitespace(c: char)
  {
    || c == ' ' || '\t' <= c <= '\r'
    || c == '\U{0085}' || c == '\U{00A0}' || c == '\U{1680}'
    || '\U{2000}' <= c <= '\U{200A}'
    || c == '\U{2028}' || c == '\U{2029}' || c == '\U{202F}' || c == '\U{205F}' || c == '\U{3000}'
  }

  predicate AllWhitespace(s: string)
  {
    forall i :: 0 <= i < |s| ==> IsWhitespace(s[i])
  }

  /** How many whitespace characters `s` starts with. */
  function LeadingWhitespace(s: string): (n: nat)
    ensures n <= |s|
    ensures forall i :: 0 <= i < n ==> IsWhitespace(s[i])
    ensures n < |s| ==> !IsWhitespace(s[n])
  {
    if s == [] || !IsWhitespace(s[0]) then 0 else 1 + LeadingWhitespace(s[1..])
  }

  /** Where the whitespace `s` ends with starts. */
  function TrailingWhitespaceStart(s: string): (n: nat)
    ensures n <= |s|
    ensures forall i :: n <= i < |s| ==> IsWhitespace(s[i])
    ensures n > 0 ==> !IsWhitespace(s[n - 1])
  {
    if s == [] || !IsWhitespace(s[|s| - 1]) then |s|
    else
      var n := TrailingWhitespaceStart(s[..|s| - 1]);
      assert forall i :: n <= i < |s| - 1 ==> s[i] == s[..|s| - 1][i];
      n
  }

  /** The two properties of `LeadingWhitespace` determine it. */
  lemma LeadingWhitespaceIs(s: string, n: nat)
    requires n <= |s|
    requires forall i :: 0 <= i < n ==> IsWhitespace(s[i])
    requires n < |s| ==> !IsWhitespace(s[n])
    ensures LeadingWhitespace(s) == n
  {
  }

  /** The two properties of `TrailingWhitespaceStart` determine it. */
  lemma TrailingWhitespaceStartIs(s: string, n: nat)
    requires n <= |s|
    requires forall i :: n <= i < |s| ==> IsWhitespace(s[i])
    requires n > 0 ==> !IsWhitespace(s[n - 1])
    ensures TrailingWhitespaceStart(s) == n
  {
  }

  /** `s` without its leading whitespace (`str::trim_start`). */
  function TrimStart(s: string): (r: string)
    ensures |r| <= |s|
  {
    s[LeadingWhitespace(s)..]
  }

  /** `s` without its trailing whitespace (`str::trim_end`). */
  function TrimEnd(s: string): (r: string)
    ensures |r| <= |s|
  {
    s[..TrailingWhitespaceStart(s)]
  }

  /** `str::trim`: both ends stripped of whitespace. */
  function Trim(s: string): (r: string)
    ensures |r| <= |s|
  {
    TrimEnd(TrimStart(s))
  }

  /** `TrimStart` drops the leading whitespace and nothing else. */
  lemma TrimStartRemovesWhitespace(s: string)
    ensures s == s[..|s| - |TrimStart(s)|] + TrimStart(s) && AllWhitespace(s[..|s| - |TrimStart(s)|])
    ensures TrimStart(s) != [] ==> !IsWhitespace(TrimStart(s)[0])
  {
    var n := LeadingWhitespace(s);
    SplitAt(s, n);
    WhitespacePrefix(s, n);
  }

  /** `TrimEnd` drops the trailing whitespace and nothing else. */
  lemma TrimEndRemovesWhitespace(s: string)
    ensures s == TrimEnd(s) + s[|TrimEnd(s)|..] && AllWhitespace(s[|TrimEnd(s)|..])
    ensures TrimEnd(s) != [] ==> !IsWhitespace(TrimEnd(s)[|TrimEnd(s)| - 1])
  {
    var n := TrailingWhitespaceStart(s);
    SplitAt(s, n);
    WhitespaceSuffix(s, n);
  }

  lemma SplitAt<T>(s: seq<T>, n: nat)
    requires n <= |s|
    ensures s == s[..n] + s[n..]
  {
  }

  lemma SliceOfConcat<T>(a: seq<T>, b: seq<T>, k: nat)
    requires k <= |a|
    ensures (a + b)[..k] == a[..k] && (a + b)[k..] == a[k..] + b
  {
  }

  lemma WhitespacePrefix(s: string, n: nat)
    requires n <= |s| && forall i :: 0 <= i < n ==> IsWhitespace(s[i])
    ensures AllWhitespace(s[..n])
  {
    assert forall i :: 0 <= i < n ==> s[..n][i] == s[i];
  }

  lemma WhitespaceSuffix(s: string, n: nat)
    requires n <= |s| && forall i :: n <= i < |s| ==> IsWhitespace(s[i])
    ensures AllWhitespace(s[n..])
  {
    assert forall i :: 0 <= i < |s| - n ==> s[n..][i] == s[n + i];
  }

  /** A trimmed text neither starts nor ends with whitespace. */
  lemma TrimRemovesOuterWhitespace(s: string)
    ensures Trim(s) != [] ==> !IsWhitespace(Trim(s)[0]) && !IsWhitespace(Trim(s)[|Trim(s)| - 1])
  {
    var a := TrimStart(s);
    var n := TrailingWhitespaceStart(a);
    if n > 0 {
      assert Trim(s)[0] == a[0];
      assert Trim(s)[n - 1] == a[n - 1];
    }
  }

  /** The trimmed text is the slice of `s` that starts after the leading whitespace. */
  lemma TrimIsSlice(s: string)
    ensures |s| - |TrimStart(s)| + |Trim(s)| <= |s|
    ensures Trim(s) == s[|s| - |TrimStart(s)|..][..|Trim(s)|]
  {
  }

  /** Trimming only ever removes whitespace: every other character survives it. */
  lemma TrimKeepsNonWhitespace(s: string, k: nat)
    requires k < |s| && !IsWhitespace(s[k])
    ensures s[k] in Trim(s)
  {
    var lead := LeadingWhitespace(s);
    var a := TrimStart(s);
    assert a[k - lead] == s[k];
    var b := TrimEnd(a);
    assert b[k - lead] == s[k];
  }

  /** A character between two non-whitespace characters survives trimming, whitespace or not. */
  lemma TrimKeepsEnclosed(s: string, j: nat, k: nat, m: nat)
    requires j <= k <= m < |s| && !IsWhitespace(s[j]) && !IsWhitespace(s[m])
    ensures s[k] in Trim(s)
  {
    var lead := LeadingWhitespace(s);
    assert lead <= j;
    var a := TrimStart(s);
    assert a[m - lead] == s[m];
    var n := TrailingWhitespaceStart(a);
    assert n > m - lead;
    var b := TrimEnd(a);
    assert b[k - lead] == s[k];
  }

  /** A string made of whitespace alone trims to nothing. */
  lemma TrimAllWhitespace(s: string)
    requires AllWhitespace(s)
    ensures TrimStart(s) == [] && Trim(s) == ""
  {
    LeadingWhitespaceIs(s, |s|);
  }

  /** What `split_whitespace` yields: non-empty runs of non-whitespace. */
  predicate IsWord(w: string)
  {
    w != [] && forall j :: 0 <= j < |w| ==> !IsWhitespace(w[j])
  }

  /** Length of the run of non-whitespace at the start of `s`. */
  function WordLength(s: string): (n: nat)
    ensures n <= |s|
    ensures forall i :: 0 <= i < n ==> !IsWhitespace(s[i])
    ensures n < |s| ==> IsWhitespace(s[n])
  {
    if s == [] || IsWhitespace(s[0]) then 0 else 1 + WordLength(s[1..])
  }

  /** `str::split_whitespace`: the maximal runs of non-whitespace, in order. */
  function Words(s: string): (r: seq<string>)
    ensures forall i :: 0 <= i < |r| ==> IsWord(r[i])
    decreases |s|
  {
    if s == [] then []
    else if IsWhitespace(s[0]) then Words(s[1..])
    else
      var n := WordLength(s);
      [s[..n]] + Words(s[n..])
  }

  /** No words exactly when there is nothing but whitespace. */
  lemma {:induction false} WordsEmptyIff(s: string)
    ensures Words(s) == [] <==> AllWhitespace(s)
    decreases |s|
  {
    if s != [] && IsWhitespace(s[0]) {
      WordsEmptyIff(s[1..]);
      assert AllWhitespace(s) <==> AllWhitespace(s[1..]);
    }
  }

  /** Leading whitespace is skipped. */
  lemma {:induction false} WordsSkipsWhitespace(ws: string, rest: string)
    requires AllWhitespace(ws)
    ensures Words(ws + rest) == Words(rest)
    decreases |ws|
  {
    if ws == [] {
      assert ws + rest == rest;
    } else {
      assert (ws + rest)[1..] == ws[1..] + rest;
      WordsSkipsWhitespace(ws[1..], rest);
    }
  }

  lemma {:induction false} WordLengthOfWord(w: string, rest: string)
    requires IsWord(w)
    requires rest == [] || IsWhitespace(rest[0])
    ensures WordLength(w + rest) == |w|
    decreases |w|
  {
    if |w| > 1 {
      assert (w + rest)[1..] == w[1..] + rest;
      WordLengthOfWord(w[1..], rest);
    } else {
      assert (w + rest)[1..] == rest;
    }
  }

  /** A word followed by whitespace (or the end) is the first word. */
  lemma WordsOfWord(w: string, rest: string)
    requires IsWord(w)
    requires rest == [] || IsWhitespace(rest[0])
    ensures Words(w + rest) == [w] + Words(rest)
  {
    WordLengthOfWord(w, rest);
    assert (w + rest)[..|w|] == w;
    assert (w + rest)[|w|..] == rest;
  }

  /** `split_whitespace` undoes joining words with single spaces. */
  lemma {:induction false} WordsOfJoin(words: seq<string>)
    requires forall i :: 0 <= i < |words| ==> IsWord(words[i])
    ensures Words(Join(words, ' ')) == words
  {
    if |words| == 1 {
      WordsOfWord(words[0], "");
      assert words[0] + "" == words[0];
    } else if |words| > 1 {
      var tail := Join(words[1..], ' ');
      assert Join(words, ' ') == words[0] + (" " + tail);
      WordsOfWord(words[0], " " + tail);
      WordsSkipsWhitespace(" ", tail);
      WordsOfJoin(words[1..]);
    }
  }
  lemma {:induction false} WordLengthBeforeWhitespace(s: string, ws: string)
    requires AllWhitespace(ws)
    ensures WordLength(s + ws) == WordLength(s)
    decreases |s|
  {
    if s == [] {
      assert s + ws == ws;
    } else if !IsWhitespace(s[0]) {
      assert (s + ws)[1..] == s[1..] + ws;
      WordLengthBeforeWhitespace(s[1..], ws);
    }
  }

  /** Trailing whitespace adds no word. */
  lemma {:induction false} WordsIgnoreTrailingWhitespace(s: string, ws: string)
    requires AllWhitespace(ws)
    ensures Words(s + ws) == Words(s)
    decreases |s|
  {
    if s == [] {
      assert s + ws == ws;
      WordsEmptyIff(ws);
    } else if IsWhitespace(s[0]) {
      assert (s + ws)[1..] == s[1..] + ws;
      WordsIgnoreTrailingWhitespace(s[1..], ws);
    } else {
      var n := WordLength(s);
      WordLengthBeforeWhitespace(s, ws);
      assert (s + ws)[..n] == s[..n];
      assert (s + ws)[n..] == s[n..] + ws;
      WordsIgnoreTrailingWhitespace(s[n..], ws);
    }
  }

  /** Trimming first does not change the words. */
  lemma WordsOfTrim(s: string)
    ensures Words(Trim(s)) == Words(s)
  {
    WordsOfTrimStart(s);
    WordsOfTrimEnd(TrimStart(s));
  }

  lemma WordsOfTrimStart(s: string)
    ensures Words(TrimStart(s)) == Words(s)
  {
    var a := TrimStart(s);
    TrimStartRemovesWhitespace(s);
    WordsSkipsWhitespace(s[..|s| - |a|], a);
  }

  lemma WordsOfTrimEnd(a: string)
    ensures Words(TrimEnd(a)) == Words(a)
  {
    var b := TrimEnd(a);
    TrimEndRemovesWhitespace(a);
    WordsIgnoreTrailingWhitespace(b, a[|b|..]);
  }

  /** Trailing whitespace is trimmed away: `s + ws` trims as `s` does. */
  lemma TrimBeforeWhitespace(s: string, ws: string)
    requires AllWhitespace(ws)
    ensures Trim(s + ws) == Trim(s)
  {
    var lead := LeadingWhitespace(s);
    if lead == |s| {
      assert AllWhitespace(s + ws) by {
        assert forall i :: |s| <= i < |s + ws| ==> (s + ws)[i] == ws[i - |s|];
      }
      TrimAllWhitespace(s + ws);
    } else {
      TrimStartBeforeWhitespace(s, ws);
      TrimEndAfterWhitespace(TrimStart(s), ws);
    }
  }

  /** Whitespace after a text that does not trim to nothing survives `TrimStart`. */
  lemma TrimStartBeforeWhitespace(s: string, ws: string)
    requires LeadingWhitespace(s) < |s|
    ensures TrimStart(s + ws) == TrimStart(s) + ws
  {
    var lead := LeadingWhitespace(s);
    var u := s + ws;
    assert forall i :: 0 <= i <= lead ==> u[i] == s[i];
    LeadingWhitespaceIs(u, lead);
    SliceOfConcat(s, ws, lead);
  }

  /** Trailing whitespace is dropped by `TrimEnd`. */
  lemma TrimEndAfterWhitespace(s: string, ws: string)
    requires AllWhitespace(ws)
    ensures TrimEnd(s + ws) == TrimEnd(s)
  {
    var n := TrailingWhitespaceStart(s);
    var u := s + ws;
    assert forall i :: 0 <= i < |s| ==> u[i] == s[i];
    assert forall i :: |s| <= i < |u| ==> u[i] == ws[i - |s|];
    TrailingWhitespaceStartIs(u, n);
    SliceOfConcat(s, ws, n);
  }

  /** Leading whitespace in front of another character is dropped by `TrimStart`. */
  lemma TrimStartAfterWhitespace(pre: string, rest: string)
    requires AllWhitespace(pre)
    requires rest != [] && !IsWhitespace(rest[0])
    ensures TrimStart(pre + rest) == rest
  {
    var s := pre + rest;
    assert forall i :: 0 <= i < |pre| ==> s[i] == pre[i];
    assert s[|pre|] == rest[0];
    LeadingWhitespaceIs(s, |pre|);
    assert s[|pre|..] == rest;
  }

  /** Trailing whitespace behind another character is dropped by `TrimEnd`. */
  lemma TrimEndBeforeWhitespace(rest: string, post: string)
    requires AllWhitespace(post)
    requires rest != [] && !IsWhitespace(rest[|rest| - 1])
    ensures TrimEnd(rest + post) == rest
  {
    var s := rest + post;
    assert s[|rest| - 1] == rest[|rest| - 1];
    assert forall i :: |rest| <= i < |s| ==> s[i] == post[i - |rest|];
    TrailingWhitespaceStartIs(s, |rest|);
    assert s[..|rest|] == rest;
  }

  /** Trimming keeps exactly the text between the leading and the trailing whitespace. */
  lemma TrimAround(pre: string, core: string, post: string)
    requires AllWhitespace(pre) && AllWhitespace(post)
    requires core != [] && !IsWhitespace(core[0]) && !IsWhitespace(core[|core| - 1])
    ensures Trim(pre + core + post) == core
  {
    assert pre + core + post == pre + (core + post);
    TrimStartAfterWhitespace(pre, core + post);
    TrimEndBeforeWhitespace(core, post);
  }
}
