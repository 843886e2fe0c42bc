/** A value that may be missing (pandas' NaN, Python's None), and filtering on presence. */
module Wrappers {
  datatype Option<+T> = None | Some(value: T)

  /** The present values of `opts`, in order. */
  function Present<T>(opts: seq<Option<T>>): seq<T>
  {
    if |opts| == 0 then []
    else
      var last := opts[|opts| - 1];
      Present(opts[..|opts| - 1]) + (if last.Some? then [last.value] else [])
  }

  /** The positions of the present values of `opts`, in order. */
  function PresentIndices<T>(opts: seq<Option<T>>): seq<nat>
  {
    if |opts| == 0 then []
    else PresentIndices(opts[..|opts| - 1]) + (if opts[|opts| - 1].Some? then [|opts| - 1] else [])
  }

  lemma PresentSnoc<T>(opts: seq<Option<T>>, x: Option<T>)
    ensures Present(opts + [x]) == Present(opts) + (if x.Some? then [x.value] else [])
  {
  }

  /**
   * `Present(opts)` lists, in order and once each, exactly the values of
   * the present entries: its k-th value is the entry at the k-th present
   * position, the positions increase, and no present entry is missed.
   */
  lemma {:induction false} PresentSpec<T>(opts: seq<Option<T>>)
    ensures |Present(opts)| == |PresentIndices(opts)|
    ensures forall k :: 0 <= k < |PresentIndices(opts)| ==>
      PresentIndices(opts)[k] < |opts| && opts[PresentIndices(opts)[k]] == Some(Present(opts)[k])
    ensures forall k, l :: 0 <= k < l < |PresentIndices(opts)| ==> PresentIndices(opts)[k] < PresentIndices(opts)[l]
    ensures forall i :: 0 <= i < |opts| && opts[i].Some? ==> i in PresentIndices(opts)
  {
    if |opts| > 0 {
      var init := opts[..|opts| - 1];
      PresentSpec(init);
      var vals0, idx0 := Present(init), PresentIndices(init);
      var vals, idx := Present(opts), PresentIndices(opts);
      forall k | 0 <= k < |idx0| ensures opts[idx0[k]] == init[idx0[k]] {
      }
      forall i | 0 <= i < |opts| - 1 && opts[i].Some? ensures i in idx {
        assert init[i] == opts[i];
        assert i in idx0;
      }
    }
  }
}
