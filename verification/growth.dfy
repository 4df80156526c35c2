/** Progress of the O(NP) search (lib/index.ts:79-88): from one loop head
    to the next, the row of every diagonal stays where it was or moves
    down, so a round never gives up ground the search has gained.

    The invariant behind it is that every slot is settled: its row is at
    most the row `snake` would give it from its current neighbours. A
    frontier of sentinels is settled, and `snake` is monotone in the rows
    of its neighbours, so each update keeps every slot settled and moves
    no slot back. Rounds, sweeps and the whole search inherit this. */
module Growth {
  import opened Trace
  import opened Frontier
  import opened Onp

  /** Slot i holds a row of at least -1, and no farther than `snake`
      would take diagonal i - N from the slot's current neighbours. */
  ghost predicate Settled<T>(A: seq<T>, B: seq<T>, fp: seq<Point>, i: int)
    requires 0 <= i < |fp|
  {
    -1 <= fp[i].y <= Snake(A, B, i - |B|, At(fp, i - 1), At(fp, i + 1)).y
  }

  /** A frontier of M + N + 1 slots, all settled. */
  ghost predicate Tight<T>(A: seq<T>, B: seq<T>, fp: seq<Point>)
  {
    && |fp| == |A| + |B| + 1
    && forall i :: 0 <= i < |fp| ==> Settled(A, B, fp, i)
  }

  /** `later` is at least as far as `fp` on every diagonal. */
  ghost predicate Ahead(fp: seq<Point>, later: seq<Point>)
  {
    && |later| == |fp|
    && forall i :: 0 <= i < |fp| ==> fp[i].y <= later[i].y
  }

  lemma AheadTrans(a: seq<Point>, b: seq<Point>, c: seq<Point>)
    requires Ahead(a, b) && Ahead(b, c)
    ensures Ahead(a, c)
  {
    forall i | 0 <= i < |a|
      ensures a[i].y <= c[i].y
    {
      assert a[i].y <= b[i].y;
    }
  }

  /** The row `createFP` chooses: the farther of the slide candidate
      `slide.y` and the down candidate `down.y + 1`, a tie going to the
      down candidate; on the last diagonal M only the slide candidate
      counts, unless neither neighbour is reached. */
  lemma CreateFPRow(slide: Point, down: Point, k: int, M: int)
    requires slide.y >= -1 && down.y >= -1
    ensures k != M ==>
              CreateFP(slide, down, k, M).y == (if slide.y > down.y + 1 then slide.y else down.y + 1)
    ensures k == M ==>
              CreateFP(slide, down, k, M).y == (if slide.y == -1 && down.y == -1 then 0 else slide.y)
  {
  }

  /** The extension from a farther row ends no nearer. */
  lemma {:induction false} ExtendMono<T>(A: seq<T>, B: seq<T>, k: int, near: Point, far: Point)
    requires near.y <= far.y
    ensures Extend(A, B, k, near).y <= Extend(A, B, k, far).y
    decreases |B| - near.y
  {
    if Matches(A, B, k, near.y) {
      var near' := Point(near.y + 1, Node(Common, near.tree));
      if near.y == far.y {
        ExtendMono(A, B, k, near', Point(far.y + 1, Node(Common, far.tree)));
      } else {
        ExtendMono(A, B, k, near', far);
      }
    }
  }

  /** `snake` from neighbours at least as far ends at least as far. On the
      last diagonal M the down neighbour lies outside the frontier, and it
      is the same for both calls. */
  lemma SnakeMono<T>(A: seq<T>, B: seq<T>, k: int, slide: Point, down: Point, slide': Point, down': Point)
    requires slide.y >= -1 && down.y >= -1
    requires slide.y <= slide'.y && down.y <= down'.y
    requires k == |A| ==> down.y == down'.y
    ensures Snake(A, B, k, slide, down).y <= Snake(A, B, k, slide', down').y
  {
    if -|B| <= k <= |A| {
      CreateFPRow(slide, down, k, |A|);
      CreateFPRow(slide', down', k, |A|);
      ExtendMono(A, B, k, CreateFP(slide, down, k, |A|), CreateFP(slide', down', k, |A|));
    }
  }

  /** The frontier of sentinels the search starts from is tight. */
  lemma InitTight<T>(A: seq<T>, B: seq<T>)
    requires Operands(A, B)
    ensures Tight(A, B, Init(A, B))
  {
    var fp := Init(A, B);
    forall i | 0 <= i < |fp|
      ensures Settled(A, B, fp, i)
    {
      assert CreateFP(At(fp, i - 1), At(fp, i + 1), i - |B|, |A|) == Point(0, Root);
    }
  }

  /** A slot that keeps its point stays settled when the rest of the
      frontier moves forward. */
  lemma SettledKept<T>(A: seq<T>, B: seq<T>, fp: seq<Point>, r: seq<Point>, i: int)
    requires Tight(A, B, fp) && Ahead(fp, r) && 0 <= i < |fp| && r[i] == fp[i]
    ensures Settled(A, B, r, i)
  {
    assert Settled(A, B, fp, i);
    assert 0 <= i - 1 ==> Settled(A, B, fp, i - 1);
    assert i + 1 < |fp| ==> Settled(A, B, fp, i + 1);
    SnakeMono(A, B, i - |B|, At(fp, i - 1), At(fp, i + 1), At(r, i - 1), At(r, i + 1));
  }

  /** The slot an update writes is settled: its neighbours are those
      `snake` was given. */
  lemma SettledWritten<T>(A: seq<T>, B: seq<T>, fp: seq<Point>, k: int)
    requires Tight(A, B, fp) && -|B| <= k <= |A|
    ensures Settled(A, B, Update(A, B, fp, k), k + |B|)
  {
    var N := |B|;
    var r := Update(A, B, fp, k);
    assert Settled(A, B, fp, k + N);
    assert At(r, k + N - 1) == At(fp, k - 1 + N) && At(r, k + N + 1) == At(fp, k + 1 + N);
  }

  /** One update of diagonal k keeps the frontier tight and moves no slot
      back: the written slot was settled, and every other slot only sees its
      neighbours move forward. */
  lemma UpdateGrows<T>(A: seq<T>, B: seq<T>, fp: seq<Point>, k: int)
    requires Tight(A, B, fp) && -|B| <= k <= |A|
    ensures Tight(A, B, Update(A, B, fp, k))
    ensures Ahead(fp, Update(A, B, fp, k))
  {
    var r := Update(A, B, fp, k);
    assert Settled(A, B, fp, k + |B|);
    assert Ahead(fp, r);
    SettledWritten(A, B, fp, k);
    forall i | 0 <= i < |r| && i != k + |B|
      ensures Settled(A, B, r, i)
    {
      SettledKept(A, B, fp, r, i);
    }
  }

  /** `UpdateGrows` for a frontier `r` known to be the update. */
  lemma UpdateGrowsTo<T>(A: seq<T>, B: seq<T>, fp: seq<Point>, k: int, r: seq<Point>)
    requires Tight(A, B, fp) && -|B| <= k <= |A| && r == Update(A, B, fp, k)
    ensures Tight(A, B, r) && Ahead(fp, r)
  {
    UpdateGrows(A, B, fp, k);
  }

  /** The upward sweep from diagonal k keeps the frontier tight and moves
      no slot back. */
  lemma {:induction false} AscendGrows<T>(A: seq<T>, B: seq<T>, fp: seq<Point>, p: int, k: int)
    requires Shape(A, B, fp, p) && -p <= k <= |A| - |B| && Tight(A, B, fp)
    ensures Tight(A, B, Ascend(A, B, fp, p, k))
    ensures Ahead(fp, Ascend(A, B, fp, p, k))
    decreases |A| - |B| - k
  {
    if k < |A| - |B| {
      var next := Update(A, B, fp, k);
      AscendUnfold(A, B, fp, p, k);
      UpdateGrows(A, B, fp, k);
      AscendGrows(A, B, next, p, k + 1);
      AheadTrans(fp, next, Ascend(A, B, next, p, k + 1));
    }
  }

  /** The downward sweep from diagonal k keeps the frontier tight and
      moves no slot back. */
  lemma {:induction false} DescendGrows<T>(A: seq<T>, B: seq<T>, fp: seq<Point>, p: int, k: int)
    requires Shape(A, B, fp, p) && |A| - |B| <= k <= |A| - |B| + p && Tight(A, B, fp)
    ensures Tight(A, B, Descend(A, B, fp, p, k))
    ensures Ahead(fp, Descend(A, B, fp, p, k))
    decreases k
  {
    if k > |A| - |B| {
      var next := Update(A, B, fp, k);
      DescendUnfold(A, B, fp, p, k);
      UpdateGrows(A, B, fp, k);
      DescendGrows(A, B, next, p, k - 1);
      AheadTrans(fp, next, Descend(A, B, next, p, k - 1));
    }
  }

  /** Both sweeps of a round keep the frontier tight and move no slot
      back. */
  lemma SweepsGrow<T>(A: seq<T>, B: seq<T>, fp: seq<Point>, p: int)
    requires Shape(A, B, fp, p) && Tight(A, B, fp)
    ensures Shape(A, B, Ascend(A, B, fp, p, -p), p)
    ensures var down := Descend(A, B, Ascend(A, B, fp, p, -p), p, |A| - |B| + p);
            Tight(A, B, down) && Ahead(fp, down)
  {
    var up := Ascend(A, B, fp, p, -p);
    AscendGrows(A, B, fp, p, -p);
    DescendGrows(A, B, up, p, |A| - |B| + p);
    AheadTrans(fp, up, Descend(A, B, up, p, |A| - |B| + p));
  }

  /** A round keeps the frontier tight, and no diagonal ends it at a row
      below the one it started with. */
  lemma RoundGrows<T>(A: seq<T>, B: seq<T>, fp: seq<Point>, p: int)
    requires Shape(A, B, fp, p) && Tight(A, B, fp)
    ensures Tight(A, B, Round(A, B, fp, p))
    ensures forall i :: 0 <= i < |fp| ==> fp[i].y <= Round(A, B, fp, p)[i].y
  {
    SweepsGrow(A, B, fp, p);
    var down := Descend(A, B, Ascend(A, B, fp, p, -p), p, |A| - |B| + p);
    var r := Round(A, B, fp, p);
    UpdateGrowsTo(A, B, down, |A| - |B|, r);
    AheadTrans(fp, down, r);
  }

  /** From a tight loop head, the frontier the search ends with is at
      least as far on every diagonal. */
  lemma {:induction false} SearchGrows<T>(A: seq<T>, B: seq<T>, fp: seq<Point>, p: int)
    requires LoopInv(A, B, fp, p) && Tight(A, B, fp)
    ensures Tight(A, B, Search(A, B, fp, p))
    ensures forall i :: 0 <= i < |fp| ==> fp[i].y <= Search(A, B, fp, p)[i].y
    decreases |B| - p
  {
    if fp[|A|].y < |B| {
      RoundKeeps(A, B, fp, p + 1);
      var next := Round(A, B, fp, p + 1);
      SearchGoesOn(A, B, fp, p, next);
      RoundGrows(A, B, fp, p + 1);
      SearchGrows(A, B, next, p + 1);
      AheadTrans(fp, next, Search(A, B, next, p + 1));
    } else {
      SearchStops(A, B, fp, p);
    }
  }

  /** Every loop head of the search is tight, so every round of it keeps
      every diagonal's row: starting from the sentinels, the search ends
      with a frontier that is tight and at least as far everywhere. */
  lemma SearchFromInitGrows<T>(A: seq<T>, B: seq<T>)
    requires Operands(A, B)
    ensures Tight(A, B, Search(A, B, Init(A, B), -1))
  {
    InitTight(A, B);
    SearchGrows(A, B, Init(A, B), -1);
  }
}
