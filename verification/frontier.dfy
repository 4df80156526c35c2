/** Frontier points and the per-diagonal update of the O(NP) search
    (lib/index.ts, `FarthestPoint`, `createFP` and `snake`). Diagonal `k` holds
    the points (x, y) of the edit graph with x - y == k, where x counts the
    consumed elements of the first operand and y those of the second. */
module Frontier {
  import opened Trace

  /** The farthest row `y` reached on one diagonal and the trace that got there. */
  datatype Point = Point(y: int, tree: Tree)

  /** The sentinel `{ y: -1 }` of a diagonal not reached yet. */
  const Unreached := Point(-1, Root)

  /** `pt` lies on diagonal `k` and its trace is a path of the edit graph to it. */
  ghost predicate Reaches<T>(A: seq<T>, B: seq<T>, k: int, pt: Point)
  {
    Path(A, B, pt.tree, pt.y + k, pt.y)
  }

  /** The neighbour read `fp[i]` of the search. The source indexes its
      frontier array without a range check, at `k - 1 + offset` and
      `k + 1 + offset`; on the outermost diagonals `-N` and `M` that index
      falls outside the array, where JavaScript yields `undefined` and the
      following `.y` throws. This model reads such a slot as the sentinel
      instead, which is the behaviour the source's tests expect. */
  function At(fp: seq<Point>, i: int): (r: Point)
    ensures 0 <= i < |fp| ==> r == fp[i]
    ensures !(0 <= i < |fp|) ==> r.y == -1
  {
    if 0 <= i < |fp| then fp[i] else Unreached
  }

  /** The branch point of diagonal `k`, from the point `slide` of diagonal
      `k - 1` (one REMOVED step) or the point `down` of diagonal `k + 1` (one
      ADDED step). The unused parameter `N` of the source is dropped. */
  function CreateFP(slide: Point, down: Point, k: int, M: int): (r: Point)
    // Two unreached neighbours start a fresh path at row 0.
    ensures slide.y == -1 && down.y == -1 ==> r == Point(0, Root)
    // Otherwise one step is prepended to the chosen neighbour's trace.
    ensures !(slide.y == -1 && down.y == -1) ==>
              || r == Point(slide.y, Node(Removed, slide.tree))
              || r == Point(down.y + 1, Node(Added, down.tree))
    // ADDED is taken exactly when `down` is reached, `k` is not the last
    // diagonal and the slide candidate is not strictly farther.
    ensures !(slide.y == -1 && down.y == -1) ==>
              (r.tree == Node(Added, down.tree) && r.y == down.y + 1 <==>
               down.y != -1 && k != M && slide.y <= down.y + 1)
    // The result never falls behind either candidate it could take.
    ensures slide.y != -1 ==> r.y >= slide.y
    ensures down.y != -1 && k != M ==> r.y >= down.y + 1
  {
    if slide.y == -1 && down.y == -1 then Point(0, Root)
    else if down.y == -1 || k == M || slide.y > down.y + 1 then Point(slide.y, Node(Removed, slide.tree))
    else Point(down.y + 1, Node(Added, down.tree))
  }

  /** The loop guard of the diagonal extension: the next elements on diagonal
      `k` below row `y` exist and are equal. The source's guard checks only the
      upper bounds. The lower bounds written out here never decide it, since
      every point the search extends has y >= 0 and y + k >= 0
      (`SnakeReaches`); there the two guards agree. */
  predicate Matches<T(==)>(A: seq<T>, B: seq<T>, k: int, y: int)
  {
    0 <= y + k < |A| && 0 <= y < |B| && A[y + k] == B[y]
  }

  /** At a point with y >= 0 and y + k >= 0 the guard agrees with the
      source's, which checks only the upper bounds. */
  lemma MatchesGuard<T>(A: seq<T>, B: seq<T>, k: int, y: int)
    requires 0 <= y && 0 <= y + k
    ensures Matches(A, B, k, y) <==> y + k < |A| && y < |B| && A[y + k] == B[y]
  {
  }

  /** The greedy extension of `fp` along diagonal `k`: one COMMON step per
      matching pair, as long as the pairs match. */
  function Extend<T(==)>(A: seq<T>, B: seq<T>, k: int, fp: Point): (r: Point)
    ensures fp.y <= r.y
    ensures r.tree == Commons(r.y - fp.y, fp.tree)
    ensures forall y :: fp.y <= y < r.y ==> Matches(A, B, k, y)
    ensures !Matches(A, B, k, r.y)
    decreases |B| - fp.y
  {
    if Matches(A, B, k, fp.y) then
      var r := Extend(A, B, k, Point(fp.y + 1, Node(Common, fp.tree)));
      CommonsShift(r.y - fp.y - 1, fp.tree);
      r
    else fp
  }

  /** A point that reaches diagonal `k` still does after the extension. */
  lemma {:induction false} ExtendReaches<T>(A: seq<T>, B: seq<T>, k: int, fp: Point)
    requires Reaches(A, B, k, fp)
    ensures Reaches(A, B, k, Extend(A, B, k, fp))
    decreases |B| - fp.y
  {
    if Matches(A, B, k, fp.y) {
      var next := Point(fp.y + 1, Node(Common, fp.tree));
      assert Reaches(A, B, k, next);
      ExtendReaches(A, B, k, next);
    }
  }

  /** The new frontier point of diagonal `k`: unreached outside `[-N, M]`,
      otherwise the branch point extended greedily along the diagonal. */
  function Snake<T(==)>(A: seq<T>, B: seq<T>, k: int, slide: Point, down: Point): (r: Point)
    ensures k < -|B| || |A| < k ==> r == Unreached
    ensures -|B| <= k <= |A| ==> r.y >= CreateFP(slide, down, k, |A|).y
    ensures -|B| <= k <= |A| ==> !Matches(A, B, k, r.y)
  {
    if k < -|B| || |A| < k then Unreached
    else Extend(A, B, k, CreateFP(slide, down, k, |A|))
  }

  /** The conditions under which the search calls `Snake` on diagonal `k`:
      each reached neighbour lies on its own diagonal with room for the step
      it offers, both neighbours are missing only on diagonal 0, and the
      slide neighbour is present on the last diagonal `M`, where the source
      forces the REMOVED step. */
  ghost predicate Ready<T>(A: seq<T>, B: seq<T>, k: int, slide: Point, down: Point)
  {
    && -|B| <= k <= |A|
    && (slide.y != -1 ==> Reaches(A, B, k - 1, slide) && slide.y + k <= |A|)
    && (down.y != -1 ==> Reaches(A, B, k + 1, down) && down.y < |B|)
    && (slide.y == -1 && down.y == -1 ==> k == 0)
    && (slide.y == -1 ==> k != |A|)
  }

  /** From ready neighbours `Snake` yields a reached point of diagonal `k`:
      0 <= y <= N and y + k <= M, its trace is a path of the edit graph, and
      the extension is maximal. */
  lemma SnakeReaches<T>(A: seq<T>, B: seq<T>, k: int, slide: Point, down: Point)
    requires Ready(A, B, k, slide, down)
    ensures var r := Snake(A, B, k, slide, down);
            && Reaches(A, B, k, r)
            && 0 <= r.y <= |B| && 0 <= r.y + k <= |A|
            && (r.y == |B| || r.y + k == |A| || A[r.y + k] != B[r.y])
  {
    var fp := CreateFP(slide, down, k, |A|);
    assert Reaches(A, B, k, fp);
    ExtendReaches(A, B, k, fp);
  }
}
