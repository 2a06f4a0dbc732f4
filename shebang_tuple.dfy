/**
 * `ShebangTuple` of `src/lib.rs`: the immutable, ordered components of a
 * shebang command, read like a Python `tuple[str, ...]`, and its `Display`,
 * which prints it the way Python's `str(tuple)` does.
 */
module ShebangTuples {
  import opened Wrappers

  datatype ShebangTuple = ShebangTuple(components: seq<string>)
  {
    /** `len(tuple)`. */
    function Len(): nat
    {
      |components|
    }

    /** `not tuple`: agrees with `Len`. */
    predicate IsEmpty()
      ensures IsEmpty() <==> Len() == 0
    {
      components == []
    }

    /** `tuple[index]` without the panic: None exactly past the end. */
    function Get(index: nat): (r: Option<string>)
      ensures r.None? <==> index >= Len()
      ensures r.Some? ==> r.value == components[index]
    {
      if index < |components| then Some(components[index]) else None
    }

    /** The first component, present exactly when the tuple is not empty. */
    function First(): (r: Option<string>)
      ensures r.None? <==> IsEmpty()
      ensures r.Some? ==> r.value == components[0]
    {
      Get(0)
    }

    /** The `Index` operator, which panics past the end; callers stay in range. */
    function At(index: nat): string
      requires index < Len()
    {
      components[index]
    }

    function IntoVec(): seq<string>
    {
      components
    }

    function AsSlice(): seq<string>
    {
      components
    }
  }

  /** `ShebangTuple::new()` and `Default`: Python's `()`. */
  function New(): (t: ShebangTuple)
    ensures t.IsEmpty() && t.Len() == 0
  {
    ShebangTuple([])
  }

  /** `from_vec`, `From<Vec<String>>` and `FromIterator`: `into_vec` gives the vector back. */
  function FromVec(v: seq<string>): (t: ShebangTuple)
    ensures t.IntoVec() == v && t.Len() == |v|
  {
    ShebangTuple(v)
  }

  /** `first` is `get(0)`, and `into_vec` undoes `from_vec` in both directions. */
  lemma AccessorsAgree(t: ShebangTuple, v: seq<string>)
    ensures t.First() == t.Get(0)
    ensures FromVec(v).IntoVec() == v
    ensures FromVec(t.IntoVec()) == t
  {
  }

  function Quoted(component: string): string
  {
    "'" + component + "'"
  }

  /** The quoted components separated by `", "`, built from the back as the display loop does. */
  function Listing(cs: seq<string>): string
  {
    if |cs| == 0 then ""
    else if |cs| == 1 then Quoted(cs[0])
    else Listing(cs[..|cs| - 1]) + ", " + Quoted(cs[|cs| - 1])
  }

  /** The same listing defined from the front: first component, then the rest. */
  function ListingFromFront(cs: seq<string>): string
  {
    if |cs| == 0 then ""
    else if |cs| == 1 then Quoted(cs[0])
    else Quoted(cs[0]) + ", " + ListingFromFront(cs[1..])
  }

  lemma {:induction false} ListingsAgree(cs: seq<string>)
    ensures Listing(cs) == ListingFromFront(cs)
  {
    if |cs| > 2 {
      var n := |cs|;
      ListingsAgree(cs[..n - 1]);
      ListingsAgree(cs[1..]);
      ListingsAgree(cs[1..][..n - 2]);
      assert cs[..n - 1][1..] == cs[1..][..n - 2];
      assert cs[..n - 1][..n - 2] == cs[..n - 2];
      assert cs[1..][n - 2] == cs[n - 1];
      assert cs[..n - 1][0] == cs[0];
      calc {
        Listing(cs);
        Listing(cs[..n - 1]) + ", " + Quoted(cs[n - 1]);
        ListingFromFront(cs[..n - 1]) + ", " + Quoted(cs[n - 1]);
        Quoted(cs[0]) + ", " + ListingFromFront(cs[1..][..n - 2]) + ", " + Quoted(cs[n - 1]);
        Quoted(cs[0]) + ", " + Listing(cs[1..][..n - 2]) + ", " + Quoted(cs[n - 1]);
        Quoted(cs[0]) + ", " + Listing(cs[1..]);
        Quoted(cs[0]) + ", " + ListingFromFront(cs[1..]);
      }
    } else if |cs| == 2 {
      assert cs[..1] == [cs[0]];
    }
  }

  /** Python's `str(tuple)`: parenthesised listing, with the trailing comma of a one-element tuple. */
  function Rendering(t: ShebangTuple): string
  {
    "(" + Listing(t.components) + (if |t.components| == 1 then "," else "") + ")"
  }

  /** `Display for ShebangTuple`: writes `(`, each component quoted with `", "` between, then `)`. */
  method Display(t: ShebangTuple) returns (s: string)
    ensures s == Rendering(t)
  {
    var cs := t.components;
    s := "(";
    var i := 0;
    while i < |cs|
      invariant 0 <= i <= |cs|
      invariant s == "(" + Listing(cs[..i])
    {
      if i > 0 {
        s := s + ", ";
      }
      s := s + "'" + cs[i] + "'";
      assert cs[..i + 1][..i] == cs[..i];
      i := i + 1;
    }
    assert cs[..|cs|] == cs;
    if |cs| == 1 {
      s := s + ",";
    }
    s := s + ")";
  }

  /** The three shapes of Python tuple text: `()`, `('x',)` and `('a', 'b', ...)`. */
  lemma RenderingShapes(x: string, a: string, rest: seq<string>)
    ensures Rendering(New()) == "()"
    ensures Rendering(FromVec([x])) == "('" + x + "',)"
    ensures Rendering(FromVec([a] + rest)) == "('" + a + "'" + (if rest == [] then ",)" else ", " + ListingFromFront(rest) + ")")
  {
    ListingsAgree([a] + rest);
    assert ([a] + rest)[1..] == rest;
  }
}
