/** Optional values, error-carrying results and the one list helper shared
    by every module. */
module Base {

  /** A value that may be missing (Python's `None`, pandas' NaN). */
  datatype Option<+T> = None | Some(value: T)

  /** Either a computed value or the error that stopped the computation. */
  datatype Result<+T, +E> = Ok(value: T) | Err(error: E)

  /** `xs + [xs[0]]`: a list closed on its first element, as a polar trace
      is closed into a polygon. */
  function Close<T>(xs: seq<T>): (r: seq<T>)
    requires |xs| > 0
    ensures |r| == |xs| + 1 && r[..|xs|] == xs && r[|xs|] == xs[0]
  {
    xs + [xs[0]]
  }

  /** `idx` lists, in increasing order, exactly the positions where `marks`
      holds: the rows a filter keeps, with their multiplicity and order. */
  predicate MarkedPositions(idx: seq<nat>, marks: seq<bool>)
  {
    && (forall j :: 0 <= j < |idx| ==> idx[j] < |marks| && marks[idx[j]])
    && (forall j, l :: 0 <= j < l < |idx| ==> idx[j] < idx[l])
    && (forall i :: 0 <= i < |marks| && marks[i] ==> i in idx)
  }

  /** Extending the marks by one position extends the kept positions by that
      position when it is marked. */
  lemma MarkedPositionsAppend(idx: seq<nat>, marks: seq<bool>, b: bool)
    requires MarkedPositions(idx, marks)
    ensures MarkedPositions(idx + (if b then [|marks|] else []), marks + [b])
  {
    var idx2 := idx + (if b then [|marks|] else []);
    var marks2 := marks + [b];
    forall j | 0 <= j < |idx2| ensures idx2[j] < |marks2| && marks2[idx2[j]] {
      if j < |idx| {
        assert idx2[j] == idx[j];
      }
    }
    forall i | 0 <= i < |marks2| && marks2[i] ensures i in idx2 {
      if i < |marks| {
        assert marks[i];
        var j :| 0 <= j < |idx| && idx[j] == i;
        assert idx2[j] == i;
      } else {
        assert idx2[|idx|] == i;
      }
    }
  }

  /** `r` is the subsequence of `vals` at the marked positions: `idx` lists
      them in increasing order and `r[j]` is the value at `idx[j]`. */
  ghost predicate SelectedAt<T>(vals: seq<T>, marks: seq<bool>, idx: seq<nat>, r: seq<T>)
  {
    && |vals| == |marks|
    && MarkedPositions(idx, marks)
    && |idx| == |r|
    && forall j :: 0 <= j < |idx| ==> vals[idx[j]] == r[j]
  }

  /** One more value, kept when marked. */
  lemma SelectedAtAppend<T>(vals: seq<T>, marks: seq<bool>, idx: seq<nat>, r: seq<T>, v: T, b: bool)
    requires SelectedAt(vals, marks, idx, r)
    ensures SelectedAt(vals + [v], marks + [b], idx + (if b then [|vals|] else []), r + (if b then [v] else []))
  {
    MarkedPositionsAppend(idx, marks, b);
    var idx2 := idx + (if b then [|vals|] else []);
    var r2 := r + (if b then [v] else []);
    forall j | 0 <= j < |idx2| ensures (vals + [v])[idx2[j]] == r2[j] {
      if j < |idx| {
        assert idx2[j] == idx[j] && r2[j] == r[j];
      }
    }
  }

  /** A selection extends by one value, taken or not. */
  lemma SelectedExtend<T>(vals: seq<T>, marks: seq<bool>, r: seq<T>, v: T, b: bool, r2: seq<T>)
    requires exists idx :: SelectedAt(vals, marks, idx, r)
    requires r2 == r + (if b then [v] else [])
    ensures exists idx :: SelectedAt(vals + [v], marks + [b], idx, r2)
  {
    var idx :| SelectedAt(vals, marks, idx, r);
    SelectedAtAppend(vals, marks, idx, r, v, b);
  }
}
