/** The exported `diff` (lib/index.ts:65-90): swap the operands so that the
    first is the longer, answer the empty cases directly, otherwise run the
    farthest-point search and backtrace the trace of diagonal delta. */
module Engine {
  import opened Trace
  import opened Frontier
  import opened Script
  import opened Onp

  /** The edit script between `A0` and `B0`. It gives back both arguments:
      the `removed` and `common` values are `A0` in order, the `added` and
      `common` values are `B0` in order; against an empty argument it is the
      other argument, all `added` or all `removed`. */
  function Diff<T(==)>(A0: seq<T>, B0: seq<T>): (r: seq<DiffResult<T>>)
    ensures ASide(r) == A0 && BSide(r) == B0
    ensures |A0| == 0 ==> |r| == |B0| && forall i :: 0 <= i < |r| ==> r[i] == DiffResult(added, B0[i])
    ensures |B0| == 0 ==> |r| == |A0| && forall i :: 0 <= i < |r| ==> r[i] == DiffResult(removed, A0[i])
  {
    var swapped := |B0| > |A0|;
    var A := if swapped then B0 else A0;
    var B := if swapped then A0 else B0;
    if |A| == 0 && |B| == 0 then []
    else if |B| == 0 then
      TaggedSides(A);
      Tagged(A, if swapped then added else removed)
    else
      var fp := Search(A, B, Init(A, B), -1);
      BackTraceSides(A, B, fp[|A|].tree, |A|, |B|, swapped);
      assert A[..|A|] == A && B[..|B|] == B;
      BackTrace(A, B, fp[|A|].tree, |A|, |B|, swapped)
  }

  /** A sequence against itself: every element `common`, in order. Round 0
      starts diagonal 0 at row 0 and its snake runs down the whole
      diagonal, so the search stops after that round. */
  lemma DiffIdentity<T>(A: seq<T>)
    ensures Diff(A, A) == Tagged(A, common)
  {
    var N := |A|;
    if N > 0 {
      var fp0 := Init(A, A);
      var start := CreateFP(At(fp0, N - 1), At(fp0, N + 1), 0, N);
      assert start == Point(0, Root);
      var last := Extend(A, A, 0, start);
      assert last.y == N by {
        assert !Matches(A, A, 0, last.y);
        if last.y > 0 {
          assert Matches(A, A, 0, last.y - 1);
        }
      }
      var fp1 := fp0[N := last];
      assert Ascend(A, A, fp0, 0, 0) == fp0;
      assert Descend(A, A, fp0, 0, 0) == fp0;
      assert Round(A, A, fp0, 0) == fp1;
      SearchGoesOn(A, A, fp0, -1, fp1);
      SearchStops(A, A, fp1, 0);
      BackTraceCommons(A, N);
      assert A[..N] == A;
    }
  }

  /** Exchanging the arguments of a diff whose arguments differ in length
      exchanges `removed` and `added` and changes nothing else: the longer
      argument leads the search either way. */
  lemma DiffSwapped<T>(A0: seq<T>, B0: seq<T>)
    requires |A0| != |B0|
    ensures Diff(B0, A0) == FlipAll(Diff(A0, B0))
  {
    if |A0| > |B0| {
      DiffLonger(A0, B0);
    } else {
      DiffLonger(B0, A0);
      FlipAllTwice(Diff(B0, A0));
    }
  }

  /** The two orders of a diff whose first argument is the longer. */
  lemma DiffLonger<T>(A: seq<T>, B: seq<T>)
    requires |A| > |B|
    ensures Diff(B, A) == FlipAll(Diff(A, B))
  {
    if |B| == 0 {
      assert Diff(A, B) == Tagged(A, removed);
      assert Diff(B, A) == Tagged(A, added);
      FlipTagged(A);
    } else {
      var fp := Search(A, B, Init(A, B), -1);
      assert Diff(A, B) == BackTrace(A, B, fp[|A|].tree, |A|, |B|, false);
      assert Diff(B, A) == BackTrace(A, B, fp[|A|].tree, |A|, |B|, true);
      BackTraceSwapped(A, B, fp[|A|].tree, |A|, |B|);
    }
  }

  /** Flipping an all-`removed` script gives the all-`added` one. */
  lemma FlipTagged<T>(xs: seq<T>)
    ensures FlipAll(Tagged(xs, removed)) == Tagged(xs, added)
  {
  }

  /** Flipping twice restores a script. */
  lemma FlipAllTwice<T>(s: seq<DiffResult<T>>)
    ensures FlipAll(FlipAll(s)) == s
  {
  }
}
