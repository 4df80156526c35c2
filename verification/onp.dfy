/** The O(NP) farthest-point search of `diff` (lib/index.ts:74-88), over
    operands already swapped so that M = |A| >= N = |B| >= 1. The frontier
    holds one point per diagonal k in [-N, M], at index k + N (the source's
    `offset`), and the target diagonal is delta = M - N, at index M.

    Round p first sweeps the diagonals -p .. delta - 1 upwards, then
    delta + p .. delta + 1 downwards, and last updates delta itself. The
    search stops as soon as diagonal delta reaches row N. The predicates
    below are the invariants of those loops: which diagonals are reached
    (a band around delta that widens by one each round), how the rows of the
    lower diagonals compare with that of delta, and that no diagonal above
    delta has reached the last column M before the search stops. */
module Onp {
  import opened Trace
  import opened Frontier

  /** The operands as the search sees them: the first at least as long as
      the second, which is not empty. */
  ghost predicate Operands<T>(A: seq<T>, B: seq<T>)
  {
    1 <= |B| <= |A|
  }

  /** The shape every sweep of round p needs: the operands of the search, a
      frontier of M + N + 1 slots and a round number the band fits into. */
  ghost predicate Shape<T>(A: seq<T>, B: seq<T>, fp: seq<Point>, p: int)
  {
    Operands(A, B) && |fp| == |A| + |B| + 1 && 0 <= p <= |B|
  }

  /** The frontier has M + N + 1 slots; exactly the diagonals lo .. hi are
      reached, each by a path of the edit graph, and all others hold a
      point with row -1. */
  ghost predicate Band<T>(A: seq<T>, B: seq<T>, fp: seq<Point>, lo: int, hi: int)
  {
    && |fp| == |A| + |B| + 1
    && forall i :: 0 <= i < |fp| ==> InBand(A, B, fp, lo, hi, i)
  }

  /** What the band lo .. hi says of slot i, which holds diagonal i - N. */
  ghost predicate InBand<T>(A: seq<T>, B: seq<T>, fp: seq<Point>, lo: int, hi: int, i: int)
    requires 0 <= i < |fp|
  {
    if lo <= i - |B| <= hi then Reaches(A, B, i - |B|, fp[i]) else fp[i].y == -1
  }

  /** The loop-head invariant after round p (p == -1 before the first round). */
  ghost predicate LoopInv<T>(A: seq<T>, B: seq<T>, fp: seq<Point>, p: int)
  {
    var N, D := |B|, |A| - |B|;
    && Operands(A, B)
    && -1 <= p <= N
    && Band(A, B, fp, if p < 0 then 0 else -p, if p < 0 then -1 else D + p)
    // the rows of the diagonals below delta do not pass that of delta
    && (forall i :: -p + N <= i < D + N ==> fp[i].y <= fp[D + N].y)
    // until the search stops: another round is possible and no diagonal
    // above delta has reached column M
    && (fp[D + N].y < N ==>
          && p < N
          && forall i :: D + N < i <= D + p + N ==> fp[i].y + (i - N) < |A|)
  }

  /** The invariant of the upward sweep of round p before diagonal k. */
  ghost predicate AscendInv<T>(A: seq<T>, B: seq<T>, fp: seq<Point>, p: int, k: int)
  {
    var N, D := |B|, |A| - |B|;
    && Operands(A, B)
    && 0 <= p <= N
    && -p <= k <= D
    && Band(A, B, fp, if k == -p then -p + 1 else -p, if p == 0 then k - 1 else D + p - 1)
    // the diagonals updated so far do not pass the last one of them
    && (forall i :: -p + N <= i < k - 1 + N ==> fp[i].y <= fp[k - 1 + N].y)
    // delta has not reached row N, and the old rows of the diagonals still
    // to come do not pass delta's
    && fp[D + N].y < N
    && (forall i :: k + N <= i < D + N ==> fp[i].y <= fp[D + N].y)
    // the old rows above delta stay below column M
    && (forall i :: D + N < i < D + p + N ==> fp[i].y + (i - N) < |A|)
  }

  /** The invariant of the downward sweep of round p before diagonal k. */
  ghost predicate DescendInv<T>(A: seq<T>, B: seq<T>, fp: seq<Point>, p: int, k: int)
  {
    var N, D := |B|, |A| - |B|;
    && Operands(A, B)
    && 0 <= p <= N
    && D <= k <= D + p
    && Band(A, B, fp, -p, if k == D + p then D + p - 1 else D + p)
    // the upward sweep left delta - 1 at least as far as everything below it
    && (forall i :: -p + N <= i < D - 1 + N ==> fp[i].y <= fp[D - 1 + N].y)
    && fp[D + N].y < N
    // the old rows between delta and k stay below column M
    && (forall i :: D + N < i < k + N ==> fp[i].y + (i - N) < |A|)
    // a diagonal of this sweep that reached column M has passed column M on
    // to diagonal k + 1
    && (forall i :: k + N < i <= D + p + N ==>
          fp[i].y + (i - N) == |A| ==> fp[k + 1 + N].y + (k + 1) == |A|)
  }

  /** A fresh frontier: M + N + 1 copies of the sentinel. */
  function Init<T>(A: seq<T>, B: seq<T>): (fp: seq<Point>)
    requires Operands(A, B)
    ensures LoopInv(A, B, fp, -1)
  {
    seq(|A| + |B| + 1, _ => Unreached)
  }

  /** The update of diagonal k in place: `fp[k + offset] = snake(k, ...)`.
      `UpdateFrame` states what it writes. */
  function Update<T(==)>(A: seq<T>, B: seq<T>, fp: seq<Point>, k: int): (r: seq<Point>)
    requires 0 <= k + |B| < |fp|
    ensures |r| == |fp|
  {
    fp[k + |B| := Snake(A, B, k, At(fp, k - 1 + |B|), At(fp, k + 1 + |B|))]
  }

  /** What a band says of one diagonal j, read through `At`. */
  lemma BandAt<T>(A: seq<T>, B: seq<T>, fp: seq<Point>, lo: int, hi: int, j: int)
    requires Band(A, B, fp, lo, hi)
    requires -|B| <= lo && hi <= |A|
    ensures lo <= j <= hi ==> Reaches(A, B, j, At(fp, j + |B|)) && At(fp, j + |B|).y >= 0
    ensures !(lo <= j <= hi) ==> At(fp, j + |B|).y == -1
  {
    if 0 <= j + |B| < |fp| {
      assert InBand(A, B, fp, lo, hi, j + |B|);
    }
  }

  /** Writing a reached point of diagonal k into a band that k lies in or
      borders gives the band grown by k. */
  lemma BandUpdate<T>(A: seq<T>, B: seq<T>, fp: seq<Point>, lo: int, hi: int, k: int, s: Point, lo': int, hi': int)
    requires Band(A, B, fp, lo, hi)
    requires 0 <= k + |B| < |fp|
    requires Reaches(A, B, k, s)
    requires lo' <= k <= hi'
    requires lo' == lo || (lo' == k && lo == k + 1)
    requires hi' == hi || (hi' == k && hi == k - 1)
    ensures Band(A, B, fp[k + |B| := s], lo', hi')
  {
    var r := fp[k + |B| := s];
    forall i | 0 <= i < |r|
      ensures InBand(A, B, r, lo', hi', i)
    {
      if i != k + |B| {
        assert InBand(A, B, fp, lo, hi, i);
      }
    }
  }

  /** Two bounds that describe the same diagonals describe the same band. */
  lemma BandSame<T>(A: seq<T>, B: seq<T>, fp: seq<Point>, lo: int, hi: int, lo': int, hi': int)
    requires Band(A, B, fp, lo, hi)
    requires (lo > hi && lo' > hi') || (lo == lo' && hi == hi')
    ensures Band(A, B, fp, lo', hi')
  {
    forall i | 0 <= i < |fp|
      ensures InBand(A, B, fp, lo', hi', i)
    {
      assert InBand(A, B, fp, lo, hi, i);
    }
  }

  /** Writing a row at slot j that is at least that of slot j - 1 keeps the
      rows of the slots from lo up to j at most the new one. */
  lemma RaiseTop(fp: seq<Point>, lo: int, j: int, s: Point)
    requires 0 <= lo <= j < |fp|
    requires forall i :: lo <= i < j - 1 ==> fp[i].y <= fp[j - 1].y
    requires lo < j ==> fp[j - 1].y <= s.y
    ensures forall i :: lo <= i < j ==> fp[i].y <= s.y
  {
  }

  /** The neighbours of diagonal k in the upward sweep are ready for `Snake`;
      below the first diagonal of the sweep, slide is the new point of k - 1. */
  lemma AscendReady<T>(A: seq<T>, B: seq<T>, fp: seq<Point>, p: int, k: int)
    requires AscendInv(A, B, fp, p, k)
    requires k < |A| - |B|
    ensures Ready(A, B, k, At(fp, k - 1 + |B|), At(fp, k + 1 + |B|))
    ensures k > -p ==> At(fp, k - 1 + |B|) == fp[k - 1 + |B|]
  {
    var N, D := |B|, |A| - |B|;
    var lo, hi := if k == -p then -p + 1 else -p, if p == 0 then k - 1 else D + p - 1;
    BandAt(A, B, fp, lo, hi, k - 1);
    BandAt(A, B, fp, lo, hi, k + 1);
    var down := At(fp, k + 1 + N);
    assert down == fp[k + 1 + N];
    if down.y != -1 && k + 1 < D {
      assert fp[k + 1 + N].y <= fp[D + N].y;
    }
  }

  /** One step of the upward sweep keeps its invariant. */
  lemma AscendStep<T>(A: seq<T>, B: seq<T>, fp: seq<Point>, p: int, k: int)
    requires AscendInv(A, B, fp, p, k)
    requires k < |A| - |B|
    ensures AscendInv(A, B, Update(A, B, fp, k), p, k + 1)
  {
    var N, D := |B|, |A| - |B|;
    var slide, down := At(fp, k - 1 + N), At(fp, k + 1 + N);
    AscendReady(A, B, fp, p, k);
    SnakeReaches(A, B, k, slide, down);
    var s := Snake(A, B, k, slide, down);
    BandUpdate(A, B, fp, if k == -p then -p + 1 else -p, if p == 0 then k - 1 else D + p - 1,
               k, s, -p, if p == 0 then k else D + p - 1);
    RaiseTop(fp, -p + N, k + N, s);
    assert Update(A, B, fp, k) == fp[k + N := s];
  }

  /** The upward sweep `for (k = -p; k < delta; k++)`, from diagonal k on.
      `AscendFrame` states which slots it writes. */
  function Ascend<T(==)>(A: seq<T>, B: seq<T>, fp: seq<Point>, p: int, k: int): (r: seq<Point>)
    requires Shape(A, B, fp, p) && -p <= k <= |A| - |B|
    ensures |r| == |fp|
    decreases |A| - |B| - k
  {
    if k >= |A| - |B| then fp
    else Ascend(A, B, Update(A, B, fp, k), p, k + 1)
  }

  /** The upward sweep keeps its invariant and leaves the diagonals from
      delta upwards as they were. */
  lemma {:induction false} AscendKeeps<T>(A: seq<T>, B: seq<T>, fp: seq<Point>, p: int, k: int)
    requires AscendInv(A, B, fp, p, k)
    ensures Shape(A, B, fp, p) && -p <= k <= |A| - |B|
    ensures AscendInv(A, B, Ascend(A, B, fp, p, k), p, |A| - |B|)
    ensures forall i :: |A| <= i < |fp| ==> Ascend(A, B, fp, p, k)[i] == fp[i]
    decreases |A| - |B| - k
  {
    if k < |A| - |B| {
      AscendStep(A, B, fp, p, k);
      AscendKeeps(A, B, Update(A, B, fp, k), p, k + 1);
    }
  }

  /** The neighbours of diagonal k in the downward sweep are ready for
      `Snake`; a diagonal below k that reached column M passes it on. */
  lemma DescendReady<T>(A: seq<T>, B: seq<T>, fp: seq<Point>, p: int, k: int)
    requires DescendInv(A, B, fp, p, k)
    requires k > |A| - |B|
    ensures Ready(A, B, k, At(fp, k - 1 + |B|), At(fp, k + 1 + |B|))
  {
    var N, D, M := |B|, |A| - |B|, |A|;
    var hi := if k == D + p then D + p - 1 else D + p;
    BandAt(A, B, fp, -p, hi, k - 1);
    BandAt(A, B, fp, -p, hi, k + 1);
    assert At(fp, k - 1 + N) == fp[k - 1 + N];
    if k - 1 > D {
      assert fp[k - 1 + N].y + (k - 1) < M;
    }
  }

  /** One step of the downward sweep keeps its invariant. */
  lemma DescendStep<T>(A: seq<T>, B: seq<T>, fp: seq<Point>, p: int, k: int)
    requires DescendInv(A, B, fp, p, k)
    requires k > |A| - |B|
    ensures DescendInv(A, B, Update(A, B, fp, k), p, k - 1)
  {
    var N, D, M := |B|, |A| - |B|, |A|;
    var slide, down := At(fp, k - 1 + N), At(fp, k + 1 + N);
    DescendReady(A, B, fp, p, k);
    SnakeReaches(A, B, k, slide, down);
    var s := Snake(A, B, k, slide, down);
    BandUpdate(A, B, fp, -p, if k == D + p then D + p - 1 else D + p, k, s, -p, D + p);
    var r := fp[k + N := s];
    assert Update(A, B, fp, k) == r;
    forall i | k - 1 + N < i <= D + p + N && r[i].y + (i - N) == M
      ensures r[k + N].y + k == M
    {
      if i != k + N {
        assert fp[i].y + (i - N) == M;
      }
    }
  }

  /** The downward sweep `for (k = delta + p; k > delta; k--)`, from
      diagonal k on. `DescendFrame` states which slots it writes. */
  function Descend<T(==)>(A: seq<T>, B: seq<T>, fp: seq<Point>, p: int, k: int): (r: seq<Point>)
    requires Shape(A, B, fp, p) && |A| - |B| <= k <= |A| - |B| + p
    ensures |r| == |fp|
    decreases k
  {
    if k <= |A| - |B| then fp
    else Descend(A, B, Update(A, B, fp, k), p, k - 1)
  }

  /** The downward sweep keeps its invariant. */
  lemma {:induction false} DescendKeeps<T>(A: seq<T>, B: seq<T>, fp: seq<Point>, p: int, k: int)
    requires DescendInv(A, B, fp, p, k)
    ensures Shape(A, B, fp, p) && |A| - |B| <= k <= |A| - |B| + p
    ensures DescendInv(A, B, Descend(A, B, fp, p, k), p, |A| - |B|)
    decreases k
  {
    if k > |A| - |B| {
      DescendStep(A, B, fp, p, k);
      DescendKeeps(A, B, Update(A, B, fp, k), p, k - 1);
    }
  }

  /** The loop head before round p starts the upward sweep. */
  lemma StartRound<T>(A: seq<T>, B: seq<T>, fp: seq<Point>, p: int)
    requires LoopInv(A, B, fp, p - 1) && fp[|A|].y < |B|
    ensures Shape(A, B, fp, p) && AscendInv(A, B, fp, p, -p)
  {
    var N, D := |B|, |A| - |B|;
    var lo, hi := if p - 1 < 0 then 0 else -(p - 1), if p - 1 < 0 then -1 else D + p - 1;
    BandAt(A, B, fp, lo, hi, D);
    BandAt(A, B, fp, lo, hi, -p);
    BandSame(A, B, fp, lo, hi, -p + 1, if p == 0 then -p - 1 else D + p - 1);
  }

  /** The end of the upward sweep starts the downward one. */
  lemma TurnRound<T>(A: seq<T>, B: seq<T>, fp: seq<Point>, p: int)
    requires AscendInv(A, B, fp, p, |A| - |B|)
    ensures Shape(A, B, fp, p) && DescendInv(A, B, fp, p, |A| - |B| + p)
  {
  }

  /** The neighbours of delta at the end of round p are ready for `Snake`;
      down is reached from round 1 on. */
  lemma FinishReady<T>(A: seq<T>, B: seq<T>, fp: seq<Point>, p: int)
    requires DescendInv(A, B, fp, p, |A| - |B|)
    ensures Ready(A, B, |A| - |B|, At(fp, |A| - 1), At(fp, |A| + 1))
    ensures At(fp, |A| - 1) == fp[|A| - 1] && At(fp, |A| + 1) == fp[|A| + 1]
    ensures p > 0 <==> fp[|A| + 1].y != -1
  {
    var N, D := |B|, |A| - |B|;
    var hi := if p == 0 then D - 1 else D + p;
    BandAt(A, B, fp, -p, hi, D - 1);
    BandAt(A, B, fp, -p, hi, D + 1);
  }

  /** At the end of round p, before delta is updated: if the new point `s`
      of delta stays above row N, no diagonal above delta has reached
      column M. The ADDED candidate from diagonal delta + 1 would otherwise
      have carried delta to row N. */
  lemma FinishEdge<T>(A: seq<T>, B: seq<T>, fp: seq<Point>, p: int, s: Point)
    requires DescendInv(A, B, fp, p, |A| - |B|)
    requires s.y < |B|
    requires fp[|A| + 1].y != -1 ==> s.y >= fp[|A| + 1].y + 1
    ensures forall i :: |A| < i <= |A| + p ==> fp[i].y + (i - |B|) < |A|
  {
    var N, D, M := |B|, |A| - |B|, |A|;
    forall i | M < i <= M + p
      ensures fp[i].y + (i - N) < M
    {
      BandAt(A, B, fp, -p, D + p, i - N);
      assert At(fp, i) == fp[i];
    }
  }

  /** After round N diagonal -N holds row N, so delta, which is at least as
      far, has reached row N as well. */
  lemma FinishLast<T>(A: seq<T>, B: seq<T>, r: seq<Point>)
    requires Band(A, B, r, -|B|, |A|)
    requires Operands(A, B)
    requires forall i :: 0 <= i < |A| ==> r[i].y <= r[|A|].y
    ensures r[|A|].y >= |B|
  {
    BandAt(A, B, r, -|B|, |A|, -|B|);
    assert r[0].y <= r[|A|].y;
  }

  /** The update of delta that ends round p completes the band -p .. delta + p
      with a point at least as far as both of delta's neighbours offer. */
  lemma FinishBand<T>(A: seq<T>, B: seq<T>, fp: seq<Point>, p: int)
    requires DescendInv(A, B, fp, p, |A| - |B|)
    ensures var s := Update(A, B, fp, |A| - |B|)[|A|];
            && Band(A, B, Update(A, B, fp, |A| - |B|), -p, |A| - |B| + p)
            && s.y >= fp[|A| - 1].y
            && (fp[|A| + 1].y != -1 ==> s.y >= fp[|A| + 1].y + 1)
  {
    var N, D := |B|, |A| - |B|;
    var slide, down := At(fp, D - 1 + N), At(fp, D + 1 + N);
    FinishReady(A, B, fp, p);
    SnakeReaches(A, B, D, slide, down);
    var s := Snake(A, B, D, slide, down);
    BandUpdate(A, B, fp, -p, if p == 0 then D - 1 else D + p, D, s, -p, D + p);
  }

  /** The update of delta that ends round p re-establishes the loop-head
      invariant; in particular after round N the search has stopped. */
  lemma FinishRound<T>(A: seq<T>, B: seq<T>, fp: seq<Point>, p: int)
    requires DescendInv(A, B, fp, p, |A| - |B|)
    ensures LoopInv(A, B, Update(A, B, fp, |A| - |B|), p)
  {
    var N, D, M := |B|, |A| - |B|, |A|;
    FinishBand(A, B, fp, p);
    var r := Update(A, B, fp, D);
    var s := r[M];
    assert r == fp[M := s];
    RaiseTop(fp, -p + N, M, s);
    if p == N {
      FinishLast(A, B, r);
    }
    if s.y < N {
      FinishEdge(A, B, fp, p, s);
    }
  }

  /** One round of the main loop, `p = p + 1` included. `RoundFrame`
      states which slots it writes. */
  function Round<T(==)>(A: seq<T>, B: seq<T>, fp: seq<Point>, p: int): (r: seq<Point>)
    requires Shape(A, B, fp, p)
    ensures |r| == |fp|
  {
    var up := Ascend(A, B, fp, p, -p);
    var down := Descend(A, B, up, p, |A| - |B| + p);
    Update(A, B, down, |A| - |B|)
  }

  /** A round started at a loop head where the search goes on ends at the
      next loop head. */
  lemma RoundKeeps<T>(A: seq<T>, B: seq<T>, fp: seq<Point>, p: int)
    requires LoopInv(A, B, fp, p - 1) && fp[|A|].y < |B|
    ensures Shape(A, B, fp, p)
    ensures LoopInv(A, B, Round(A, B, fp, p), p)
  {
    StartRound(A, B, fp, p);
    AscendKeeps(A, B, fp, p, -p);
    var up := Ascend(A, B, fp, p, -p);
    TurnRound(A, B, up, p);
    DescendKeeps(A, B, up, p, |A| - |B| + p);
    var down := Descend(A, B, up, p, |A| - |B| + p);
    FinishRound(A, B, down, p);
    assert Round(A, B, fp, p) == Update(A, B, down, |A| - |B|);
  }

  /** The main loop `while (fp[delta + offset].y < N)`. It ends with
      diagonal delta at row N, the bottom-right corner (M, N) of the edit
      graph, by a path of the graph; it runs at most N + 1 rounds. */
  function Search<T(==)>(A: seq<T>, B: seq<T>, fp: seq<Point>, p: int): (r: seq<Point>)
    requires LoopInv(A, B, fp, p)
    ensures |r| == |A| + |B| + 1
    ensures r[|A|].y == |B| && Path(A, B, r[|A|].tree, |A|, |B|)
    decreases |B| - p
  {
    if fp[|A|].y >= |B| then
      BandAt(A, B, fp, if p < 0 then 0 else -p, if p < 0 then -1 else |A| - |B| + p, |A| - |B|);
      fp
    else
      RoundKeeps(A, B, fp, p + 1);
      Search(A, B, Round(A, B, fp, p + 1), p + 1)
  }

  /** One more round of the search from a loop head where delta has not
      reached row N, ending at `next`: the search from there is the search
      from the next loop head. */
  lemma SearchGoesOn<T>(A: seq<T>, B: seq<T>, fp: seq<Point>, p: int, next: seq<Point>)
    requires LoopInv(A, B, fp, p) && fp[|A|].y < |B|
    requires Shape(A, B, fp, p + 1) && Round(A, B, fp, p + 1) == next
    ensures LoopInv(A, B, next, p + 1)
    ensures Search(A, B, fp, p) == Search(A, B, next, p + 1)
  {
    RoundKeeps(A, B, fp, p + 1);
  }

  /** A last round from a loop head where delta is below row N, which
      carries delta to row N, ends the search. */
  lemma SearchEnds<T>(A: seq<T>, B: seq<T>, fp: seq<Point>, p: int, next: seq<Point>)
    requires LoopInv(A, B, fp, p) && fp[|A|].y < |B|
    requires Shape(A, B, fp, p + 1) && Round(A, B, fp, p + 1) == next && next[|A|].y >= |B|
    ensures Search(A, B, fp, p) == next
  {
    SearchGoesOn(A, B, fp, p, next);
  }

  /** Two rounds from a loop head, the second of which carries delta to
      row N, are the whole rest of the search. */
  lemma SearchTwoRounds<T>(A: seq<T>, B: seq<T>, fp0: seq<Point>, p: int, fp1: seq<Point>, fp2: seq<Point>)
    requires LoopInv(A, B, fp0, p) && fp0[|A|].y < |B|
    requires Shape(A, B, fp0, p + 1) && Round(A, B, fp0, p + 1) == fp1 && fp1[|A|].y < |B|
    requires Shape(A, B, fp1, p + 2) && Round(A, B, fp1, p + 2) == fp2 && fp2[|A|].y >= |B|
    ensures Search(A, B, fp0, p) == fp2
  {
    SearchGoesOn(A, B, fp0, p, fp1);
    SearchEnds(A, B, fp1, p + 1, fp2);
  }

  /** A loop head where delta has reached row N is the end of the search. */
  lemma SearchStops<T>(A: seq<T>, B: seq<T>, fp: seq<Point>, p: int)
    requires LoopInv(A, B, fp, p) && fp[|A|].y >= |B|
    ensures Search(A, B, fp, p) == fp
  {
  }

  /** One step of the upward sweep: the rest of the sweep from k is the rest
      from k + 1 after updating k. */
  lemma AscendUnfold<T>(A: seq<T>, B: seq<T>, fp: seq<Point>, p: int, k: int)
    requires Shape(A, B, fp, p) && -p <= k < |A| - |B|
    ensures Shape(A, B, Update(A, B, fp, k), p)
    ensures Ascend(A, B, fp, p, k) == Ascend(A, B, Update(A, B, fp, k), p, k + 1)
  {
  }

  /** One step of the downward sweep: the rest of the sweep from k is the
      rest from k - 1 after updating k. */
  lemma DescendUnfold<T>(A: seq<T>, B: seq<T>, fp: seq<Point>, p: int, k: int)
    requires Shape(A, B, fp, p) && |A| - |B| < k <= |A| - |B| + p
    ensures Shape(A, B, Update(A, B, fp, k), p)
    ensures Descend(A, B, fp, p, k) == Descend(A, B, Update(A, B, fp, k), p, k - 1)
  {
  }

  /** The update of diagonal k writes the new point of diagonal k, built
      from the neighbours read through `At`, into slot k + N, and keeps
      every other slot. */
  lemma UpdateFrame<T>(A: seq<T>, B: seq<T>, fp: seq<Point>, k: int)
    requires 0 <= k + |B| < |fp|
    ensures Update(A, B, fp, k)[k + |B|] == Snake(A, B, k, At(fp, k - 1 + |B|), At(fp, k + 1 + |B|))
    ensures forall i :: 0 <= i < |fp| && i != k + |B| ==> Update(A, B, fp, k)[i] == fp[i]
  {
  }

  /** The upward sweep from diagonal k writes only the slots of diagonals
      k .. delta - 1. */
  lemma {:induction false} AscendFrame<T>(A: seq<T>, B: seq<T>, fp: seq<Point>, p: int, k: int)
    requires Shape(A, B, fp, p) && -p <= k <= |A| - |B|
    ensures forall i :: 0 <= i < |fp| && !(k + |B| <= i < |A|) ==> Ascend(A, B, fp, p, k)[i] == fp[i]
    decreases |A| - |B| - k
  {
    if k < |A| - |B| {
      UpdateFrame(A, B, fp, k);
      AscendFrame(A, B, Update(A, B, fp, k), p, k + 1);
    }
  }

  /** The downward sweep from diagonal k writes only the slots of diagonals
      delta + 1 .. k. */
  lemma {:induction false} DescendFrame<T>(A: seq<T>, B: seq<T>, fp: seq<Point>, p: int, k: int)
    requires Shape(A, B, fp, p) && |A| - |B| <= k <= |A| - |B| + p
    ensures forall i :: 0 <= i < |fp| && !(|A| < i <= k + |B|) ==> Descend(A, B, fp, p, k)[i] == fp[i]
    decreases k
  {
    if k > |A| - |B| {
      UpdateFrame(A, B, fp, k);
      DescendFrame(A, B, Update(A, B, fp, k), p, k - 1);
    }
  }

  /** Round p writes only the slots of diagonals -p .. delta + p; the
      diagonals beyond the band of the round keep their points. */
  lemma RoundFrame<T>(A: seq<T>, B: seq<T>, fp: seq<Point>, p: int)
    requires Shape(A, B, fp, p)
    ensures forall i :: 0 <= i < |fp| && !(|B| - p <= i <= |A| + p) ==> Round(A, B, fp, p)[i] == fp[i]
  {
    AscendFrame(A, B, fp, p, -p);
    var up := Ascend(A, B, fp, p, -p);
    DescendFrame(A, B, up, p, |A| - |B| + p);
    UpdateFrame(A, B, Descend(A, B, up, p, |A| - |B| + p), |A| - |B|);
  }
}
