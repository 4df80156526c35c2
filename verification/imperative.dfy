/** The source's own loops, over a mutable frontier array: `snake` with its
    `while` extension, `backTrace` walking the trace from the last node to
    the first while prepending, and `diff` with its round loop and two
    sweeps. Each sweep is written as the statement on its first diagonal
    followed by the rest of the sweep, as the functional model unfolds the
    same `for` loop. Each method is proved to compute exactly what its
    functional counterpart, named in its ensures, computes, so the
    properties proved there hold of the loops too. */
module Imperative {
  import opened Trace
  import opened Frontier
  import opened Script
  import opened Onp
  import Engine

  /** `snake` (lib/index.ts:53-63): the branch point from `createFP`, then
      one COMMON step per matching pair along diagonal k. */
  method Snake<T(==)>(A: seq<T>, B: seq<T>, k: int, slide: Point, down: Point) returns (fp: Point)
    ensures fp == Frontier.Snake(A, B, k, slide, down)
  {
    if k < -|B| || |A| < k {
      return Unreached;
    }
    fp := CreateFP(slide, down, k, |A|);
    ghost var start := fp;
    // The source's guard has only the upper bounds; on the points the
    // search extends, y and y + k are never negative (`SnakeReaches`).
    while 0 <= fp.y + k < |A| && 0 <= fp.y < |B| && A[fp.y + k] == B[fp.y]
      invariant Extend(A, B, k, fp) == Extend(A, B, k, start)
      decreases |B| - fp.y
    {
      fp := Point(fp.y + 1, Node(Common, fp.tree));
    }
  }

  /** `backTrace` (lib/index.ts:24-44): the script of the trace of
      `current`, which gives back both operands. */
  method BackTrace<T>(A: seq<T>, B: seq<T>, current: Point, swapped: bool) returns (result: seq<DiffResult<T>>)
    requires Path(A, B, current.tree, |A|, |B|)
    ensures result == Script.BackTrace(A, B, current.tree, |A|, |B|, swapped)
    ensures ASide(result) == (if swapped then B else A)
    ensures BSide(result) == (if swapped then A else B)
  {
    result := Walk(A, B, current.tree, swapped);
    BackTraceSides(A, B, current.tree, |A|, |B|, swapped);
    assert A[..|A|] == A && B[..|B|] == B;
  }

  /** The loop of `backTrace` (lib/index.ts:27-43): walks the trace from
      its last node back to the root with cursors a and b on the last
      elements of the operands, prepending one entry per node. */
  method Walk<T>(A: seq<T>, B: seq<T>, t: Tree, swapped: bool) returns (result: seq<DiffResult<T>>)
    requires Path(A, B, t, |A|, |B|)
    ensures result == Script.BackTrace(A, B, t, |A|, |B|, swapped)
  {
    result := [];
    var a, b := |A| - 1, |B| - 1;
    var j := t;
    ghost var whole := Script.BackTrace(A, B, j, |A|, |B|, swapped);
    while j.Node?
      invariant Path(A, B, j, a + 1, b + 1)
      invariant Script.BackTrace(A, B, j, a + 1, b + 1, swapped) + result == whole
      decreases j
    {
      ghost var old_result := result;
      ghost var x, y, e := StepBack(A, B, j, a + 1, b + 1, swapped, result, whole);
      if j.op == Added {
        result := [DiffResult(if swapped then removed else added, B[b])] + result;
        b := b - 1;
      } else if j.op == Removed {
        result := [DiffResult(if swapped then added else removed, A[a])] + result;
        a := a - 1;
      } else {
        result := [DiffResult(common, A[a])] + result;
        a := a - 1;
        b := b - 1;
      }
      assert x == a + 1 && y == b + 1 && result == [e] + old_result;
      j := j.prev;
    }
  }

  /** One iteration of `backTrace`: the last node of a trace reaching
      (x, y) is the entry `e` the loop prepends, and the rest of the trace
      reaches (x', y'), where the cursors move to. */
  lemma StepBack<T>(A: seq<T>, B: seq<T>, j: Tree, x: int, y: int, swapped: bool,
                    result: seq<DiffResult<T>>, whole: seq<DiffResult<T>>)
    returns (x': int, y': int, e: DiffResult<T>)
    requires j.Node? && Path(A, B, j, x, y)
    requires Script.BackTrace(A, B, j, x, y, swapped) + result == whole
    ensures x' == (if j.op == Added then x else x - 1)
    ensures y' == (if j.op == Removed then y else y - 1)
    ensures j.op == Added ==> e == DiffResult(if swapped then removed else added, B[y - 1])
    ensures j.op == Removed ==> e == DiffResult(if swapped then added else removed, A[x - 1])
    ensures j.op == Common ==> e == DiffResult(common, A[x - 1])
    ensures Path(A, B, j.prev, x', y')
    ensures Script.BackTrace(A, B, j.prev, x', y', swapped) + ([e] + result) == whole
  {
    x', y' := if j.op == Added then x else x - 1, if j.op == Removed then y else y - 1;
    var rest := Script.BackTrace(A, B, j.prev, x', y', swapped);
    e := Script.BackTrace(A, B, j, x, y, swapped)[|rest|];
    assert Script.BackTrace(A, B, j, x, y, swapped) == rest + [e];
    assert rest + [e] + result == rest + ([e] + result);
  }

  /** The neighbour read `fp[i]` of the round loop, with the sentinel for a
      slot outside the array as `Frontier.At` describes. */
  method Neighbour(fp: array<Point>, i: int) returns (pt: Point)
    ensures pt == At(fp[..], i)
  {
    if 0 <= i < fp.Length {
      pt := fp[i];
    } else {
      pt := Unreached;
    }
  }

  /** The statement `fp[k + offset] = snake(k, fp[k - 1 + offset],
      fp[k + 1 + offset], offset, A, B)` shared by both sweeps and the
      update of delta. */
  method Step<T(==)>(A: seq<T>, B: seq<T>, fp: array<Point>, k: int)
    requires 0 <= k + |B| < fp.Length
    modifies fp
    ensures fp[..] == Update(A, B, old(fp[..]), k)
  {
    var offset := |B|;
    var slide := Neighbour(fp, k - 1 + offset);
    var down := Neighbour(fp, k + 1 + offset);
    var s := Snake(A, B, k, slide, down);
    fp[k + offset] := s;
  }

  /** The upward sweep `for (k = -p; k < delta; k++)` of round p: the
      statement on diagonal k, then the rest of the sweep from k + 1. */
  method AscendSweep<T(==)>(A: seq<T>, B: seq<T>, fp: array<Point>, p: int, k: int)
    requires Shape(A, B, fp[..], p) && -p <= k <= |A| - |B|
    modifies fp
    ensures fp[..] == Ascend(A, B, old(fp[..]), p, k)
    decreases |A| - |B| - k
  {
    if k < |A| - |B| {
      AscendUnfold(A, B, fp[..], p, k);
      Step(A, B, fp, k);
      AscendSweep(A, B, fp, p, k + 1);
    }
  }

  /** The downward sweep `for (k = delta + p; k > delta; k--)` of round p:
      the statement on diagonal k, then the rest of the sweep from k - 1. */
  method DescendSweep<T(==)>(A: seq<T>, B: seq<T>, fp: array<Point>, p: int, k: int)
    requires Shape(A, B, fp[..], p) && |A| - |B| <= k <= |A| - |B| + p
    modifies fp
    ensures fp[..] == Descend(A, B, old(fp[..]), p, k)
    decreases k
  {
    if k > |A| - |B| {
      DescendUnfold(A, B, fp[..], p, k);
      Step(A, B, fp, k);
      DescendSweep(A, B, fp, p, k - 1);
    }
  }

  /** One pass of the round loop's body: both sweeps, then delta. */
  method RunRound<T(==)>(A: seq<T>, B: seq<T>, fp: array<Point>, p: int)
    requires Shape(A, B, fp[..], p)
    modifies fp
    ensures fp[..] == Round(A, B, old(fp[..]), p)
  {
    AscendSweep(A, B, fp, p, -p);
    DescendSweep(A, B, fp, p, |A| - |B| + p);
    Step(A, B, fp, |A| - |B|);
  }

  /** The round loop of `diff` (lib/index.ts:74-88) over a frontier array
      of M + N + 1 sentinels; it yields the final point of diagonal delta. */
  method Farthest<T(==)>(A: seq<T>, B: seq<T>) returns (last: Point)
    requires Operands(A, B)
    ensures last == Search(A, B, Init(A, B), -1)[|A|]
    ensures last.y == |B| && Path(A, B, last.tree, |A|, |B|)
  {
    var M, N := |A|, |B|;
    var offset, delta, size := N, M - N, M + N + 1;
    var fp := new Point[size](_ => Unreached);
    var p := -1;
    assert fp[..] == Init(A, B);
    ghost var target := Search(A, B, fp[..], p);
    while fp[delta + offset].y < N
      invariant fp.Length == size
      invariant LoopInv(A, B, fp[..], p)
      invariant Search(A, B, fp[..], p) == target
      decreases N - p
    {
      ghost var before := fp[..];
      assert before[M] == fp[delta + offset];
      RoundKeeps(A, B, before, p + 1);
      p := p + 1;
      RunRound(A, B, fp, p);
      SearchGoesOn(A, B, before, p - 1, fp[..]);
    }
    ghost var final := fp[..];
    assert final[M] == fp[delta + offset];
    SearchStops(A, B, final, p);
    last := fp[delta + offset];
  }

  /** `diff` (lib/index.ts:65-90) over a frontier array updated in place. */
  method Diff<T(==)>(A0: seq<T>, B0: seq<T>) returns (result: seq<DiffResult<T>>)
    ensures result == Engine.Diff(A0, B0)
  {
    var swapped := |B0| > |A0|;
    var A, B := if swapped then B0 else A0, if swapped then A0 else B0;
    var M, N := |A|, |B|;
    if M == 0 && N == 0 {
      return [];
    }
    if N == 0 {
      var t := if swapped then added else removed;
      result := seq(M, i requires 0 <= i < M => DiffResult(t, A[i]));
      assert result == Tagged(A, t);
      return;
    }
    var last := Farthest(A, B);
    result := BackTrace(A, B, last, swapped);
  }
}
