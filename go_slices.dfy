/** Go slices, which are either nil or a (possibly empty) non-nil sequence.
    The distinction is visible to callers (a nil slice is encoded as JSON
    `null`, an empty non-nil one as `[]`), so the model keeps it. */
module GoSlices {

  datatype Slice<T> = Nil | NonNil(elems: seq<T>)
  {
    /** The elements; a nil slice has none. */
    function Items(): seq<T>
    {
      if Nil? then [] else elems
    }

    function Len(): nat
    {
      |Items()|
    }
  }

  /** `make([]T, 0)`: an empty slice that is not nil. */
  function Empty<T>(): (r: Slice<T>)
    ensures r.NonNil? && r.Items() == []
  {
    NonNil([])
  }

  /** Go's `append(s, x)`: the result is never nil. */
  function Append<T>(s: Slice<T>, x: T): (r: Slice<T>)
    ensures r.NonNil?
    ensures r.Items() == s.Items() + [x]
  {
    NonNil(s.Items() + [x])
  }

  /** Appending every element of `xs`, in order, one call at a time: the
      result stays nil only when it started nil and nothing was appended. */
  function AppendAll<T>(s: Slice<T>, xs: seq<T>): (r: Slice<T>)
    ensures r.Items() == s.Items() + xs
    ensures r.Nil? <==> s.Nil? && xs == []
  {
    if s.Nil? && xs == [] then Nil else NonNil(s.Items() + xs)
  }

  /** `s[:n]` for `n <= len(s)`: slicing a slice gives a non-nil slice
      unless it is applied to nil (only possible with `n == 0`). */
  function Prefix<T>(s: Slice<T>, n: nat): (r: Slice<T>)
    requires n <= s.Len()
    ensures r.Items() == s.Items()[..n]
    ensures r.Nil? <==> s.Nil?
  {
    if s.Nil? then Nil else NonNil(s.elems[..n])
  }

  /** `for _, x := range xs { r = append(r, f(x)) }` on a slice that starts
      nil: one transformed element per input, in order, and nil only for no
      input. */
  method AppendEach<A, B>(xs: seq<A>, f: A -> B) returns (r: Slice<B>)
    ensures r.Len() == |xs| && (r.Nil? <==> xs == [])
    ensures forall k :: 0 <= k < |xs| ==> r.Items()[k] == f(xs[k])
  {
    r := Nil;
    for i := 0 to |xs|
      invariant r.Len() == i && (r.Nil? <==> i == 0)
      invariant forall k :: 0 <= k < i ==> r.Items()[k] == f(xs[k])
    {
      r := Append(r, f(xs[i]));
    }
  }
}
