/**
 The shape shared by both branch-list loops: walk the newline-separated segments in
 order, skip the empty ones, and append a transformed copy of every other one.
 The emptiness test looks at the segment as it came out of the split, before any
 transformation, so a transformation may still produce an empty element.
 */
module Lines {
  import opened GoStrings

  /** The indices of the non-empty segments, in increasing order: entry `k` is the
      index of the `k`-th non-empty segment, and no non-empty segment is missed. */
  function NonEmptyPositions(segs: seq<string>): (ps: seq<nat>)
    ensures forall k :: 0 <= k < |ps| ==> ps[k] < |segs| && segs[ps[k]] != ""
    ensures forall k, l :: 0 <= k < l < |ps| ==> ps[k] < ps[l]
    ensures forall j :: 0 <= j < |segs| && segs[j] != "" ==> j in ps
  {
    if segs == [] then []
    else
      var n := |segs| - 1;
      NonEmptyPositions(segs[..n]) + (if segs[n] == "" then [] else [n])
  }

  /** The segments that are not empty, each passed through `f`, in their original order. */
  function Collect(segs: seq<string>, f: string -> string): (out: seq<string>)
    ensures |out| <= |segs|
  {
    if segs == [] then []
    else
      var n := |segs| - 1;
      Collect(segs[..n], f) + (if segs[n] == "" then [] else [f(segs[n])])
  }

  /** Element `k` of the result is `f` of the `k`-th non-empty segment, and there is one
      element per non-empty segment: nothing is dropped, added, sorted or merged. */
  lemma {:induction false} CollectAt(segs: seq<string>, f: string -> string)
    ensures var ps := NonEmptyPositions(segs);
      |Collect(segs, f)| == |ps| &&
      forall k :: 0 <= k < |ps| ==> Collect(segs, f)[k] == f(segs[ps[k]])
  {
    if segs != [] {
      var n := |segs| - 1;
      CollectAt(segs[..n], f);
      var ps, out := NonEmptyPositions(segs[..n]), Collect(segs[..n], f);
      var ps', out' := NonEmptyPositions(segs), Collect(segs, f);
      assert ps' == ps + (if segs[n] == "" then [] else [n]);
      assert out' == out + (if segs[n] == "" then [] else [f(segs[n])]);
      forall k | 0 <= k < |ps'|
        ensures out'[k] == f(segs[ps'[k]])
      {
        if k < |ps| {
          assert ps'[k] == ps[k] && out'[k] == out[k];
          assert segs[..n][ps[k]] == segs[ps[k]];
        }
      }
    }
  }

  /** Only all-empty segments give an empty result. */
  lemma CollectEmpty(segs: seq<string>, f: string -> string)
    ensures Collect(segs, f) == [] <==> forall j :: 0 <= j < |segs| ==> segs[j] == ""
  {
    CollectAt(segs, f);
  }

  /** Every non-empty segment contributes its image to the result. */
  lemma CollectHas(segs: seq<string>, f: string -> string, j: nat)
    requires j < |segs| && segs[j] != ""
    ensures f(segs[j]) in Collect(segs, f)
  {
    CollectAt(segs, f);
    var ps := NonEmptyPositions(segs);
    var k :| 0 <= k < |ps| && ps[k] == j;
    assert Collect(segs, f)[k] == f(segs[j]);
  }

  /** Collecting a concatenation collects each part. */
  lemma {:induction false} CollectConcat(a: seq<string>, b: seq<string>, f: string -> string)
    ensures Collect(a + b, f) == Collect(a, f) + Collect(b, f)
  {
    if b == [] {
      assert a + b == a;
    } else {
      var n := |b| - 1;
      CollectConcat(a, b[..n], f);
      assert (a + b)[..|a + b| - 1] == a + b[..n];
      assert (a + b)[|a + b| - 1] == b[n];
    }
  }

  /** Collecting the lines of `output` gives nothing exactly when `output` is empty or
      holds nothing but newlines. */
  lemma CollectLinesEmpty(output: string, f: string -> string)
    ensures Collect(Split(output, '\n'), f) == [] <==>
      forall i :: 0 <= i < |output| ==> output[i] == '\n'
  {
    var segs := Split(output, '\n');
    CollectEmpty(segs, f);
    if forall i :: 0 <= i < |output| ==> output[i] == '\n' {
      SplitOnlySeps(output, '\n');
    }
    if forall j :: 0 <= j < |segs| ==> segs[j] == "" {
      SplitJoin(output, '\n');
      JoinOfEmpties(segs, '\n');
    }
  }
}
