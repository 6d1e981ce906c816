/** `NegativeIndex::neg_index` on a vector: Python-style indexing from the end for negative indices. */
module NegativeIndex {
  import opened Wrappers

  /** `Vec::get`: the element at `i`, or none past the end. */
  function Get<T>(v: seq<T>, i: nat): Option<T> {
    if i < |v| then Some(v[i]) else None
  }

  /**
    A non-negative index reads element `index`; a negative index `-k` reads
    element `|v| - k`. Both are bounds checked, and every index outside
    `-|v| .. |v| - 1` gives none. The index is a Rust `isize`. For a vector of
    non-zero-sized elements, such as the vector of paths it is applied to,
    the length never exceeds `isize::MAX`, so `|v| + index` cannot overflow
    and the unbounded `int` is exact.
  */
  function NegIndex<T>(v: seq<T>, index: int): (r: Option<T>)
    ensures r.Some? <==> -|v| <= index < |v|
    ensures r.Some? ==> r.value == v[if index < 0 then |v| + index else index]
  {
    if index < 0 then
      var fromStart := |v| + index;
      if fromStart < 0 then None else Get(v, fromStart)
    else
      Get(v, index)
  }

  /** Counting back `|v| - i` from the end reaches the same element as counting forward `i` from the start. */
  lemma NegIndexAgreesWithForward<T>(v: seq<T>, i: nat)
    requires i < |v|
    ensures NegIndex(v, i - |v|) == NegIndex(v, i) == Some(v[i])
  {
  }
}
