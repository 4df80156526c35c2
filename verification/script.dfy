/** The edit script a diff returns and the backtrace that builds it from a
    trace (lib/index.ts, `DiffType`, `DiffResult` and `backTrace`). */
module Script {
  import opened Trace

  /** The three entry kinds, spelled as the source's string tags. */
  datatype DiffType = removed | common | added

  /** One entry `{ type, value }` of an edit script. */
  datatype DiffResult<T> = DiffResult(diffType: DiffType, value: T)

  /** The values of the entries that belong to the first argument of the
      diff (`removed` and `common`), in script order. */
  function ASide<T>(s: seq<DiffResult<T>>): seq<T>
  {
    if |s| == 0 then []
    else ASide(s[..|s| - 1]) + (if s[|s| - 1].diffType != added then [s[|s| - 1].value] else [])
  }

  /** The values of the entries that belong to the second argument of the
      diff (`added` and `common`), in script order. */
  function BSide<T>(s: seq<DiffResult<T>>): seq<T>
  {
    if |s| == 0 then []
    else BSide(s[..|s| - 1]) + (if s[|s| - 1].diffType != removed then [s[|s| - 1].value] else [])
  }

  /** `xs` with every element tagged `t`: the script of a diff against an
      empty sequence. */
  function Tagged<T>(xs: seq<T>, t: DiffType): (r: seq<DiffResult<T>>)
    ensures |r| == |xs|
    ensures forall i :: 0 <= i < |r| ==> r[i] == DiffResult(t, xs[i])
  {
    if |xs| == 0 then [] else Tagged(xs[..|xs| - 1], t) + [DiffResult(t, xs[|xs| - 1])]
  }

  /** A script of `removed` entries only gives back its values as the first
      side and nothing as the second; `added` entries the other way round. */
  lemma TaggedSides<T>(xs: seq<T>)
    ensures ASide(Tagged(xs, removed)) == xs && BSide(Tagged(xs, removed)) == []
    ensures ASide(Tagged(xs, added)) == [] && BSide(Tagged(xs, added)) == xs
  {
    TaggedASide(xs, removed);
    TaggedBSide(xs, removed);
    TaggedASide(xs, added);
    TaggedBSide(xs, added);
  }

  /** The first side of a script tagged `t` throughout: all of `xs` unless
      `t` is `added`. */
  lemma {:induction false} TaggedASide<T>(xs: seq<T>, t: DiffType)
    ensures ASide(Tagged(xs, t)) == (if t == added then [] else xs)
  {
    if |xs| > 0 {
      var init, s := xs[..|xs| - 1], Tagged(xs, t);
      TaggedASide(init, t);
      assert s[..|s| - 1] == Tagged(init, t);
      assert init + [xs[|xs| - 1]] == xs;
    }
  }

  /** The second side of a script tagged `t` throughout: all of `xs` unless
      `t` is `removed`. */
  lemma {:induction false} TaggedBSide<T>(xs: seq<T>, t: DiffType)
    ensures BSide(Tagged(xs, t)) == (if t == removed then [] else xs)
  {
    if |xs| > 0 {
      var init, s := xs[..|xs| - 1], Tagged(xs, t);
      TaggedBSide(init, t);
      assert s[..|s| - 1] == Tagged(init, t);
      assert init + [xs[|xs| - 1]] == xs;
    }
  }

  /** Appending one entry appends its value to the side(s) it belongs to. */
  lemma SidesSnoc<T>(s: seq<DiffResult<T>>, e: DiffResult<T>)
    ensures ASide(s + [e]) == ASide(s) + (if e.diffType != added then [e.value] else [])
    ensures BSide(s + [e]) == BSide(s) + (if e.diffType != removed then [e.value] else [])
  {
    assert (s + [e])[..|s|] == s;
  }

  /** The entry kind of a REMOVED or ADDED node: the tags trade places when
      the operands were swapped. */
  function EditType(op: Op, swapped: bool): (t: DiffType)
    requires op != Common
    ensures t != common
    ensures (t == added) == ((op == Added) != swapped)
  {
    if op == Added then (if swapped then removed else added)
    else (if swapped then added else removed)
  }

  /** The script of trace `t`, which reaches (a, b): one entry per node, in
      path order, consuming `A` and `B` from their tails. An ADDED node emits
      `B[b - 1]`, a REMOVED node `A[a - 1]` and a COMMON node `A[a - 1]`. */
  function BackTrace<T>(A: seq<T>, B: seq<T>, t: Tree, a: int, b: int, swapped: bool): (r: seq<DiffResult<T>>)
    requires Path(A, B, t, a, b)
    ensures |r| == Length(t)
    decreases t
  {
    match t
    case Root => []
    case Node(op, prev) =>
      if op == Added then BackTrace(A, B, prev, a, b - 1, swapped) + [DiffResult(EditType(Added, swapped), B[b - 1])]
      else if op == Removed then BackTrace(A, B, prev, a - 1, b, swapped) + [DiffResult(EditType(Removed, swapped), A[a - 1])]
      else BackTrace(A, B, prev, a - 1, b - 1, swapped) + [DiffResult(common, A[a - 1])]
  }

  /** Reconstruction: the script of a trace reaching (a, b) gives back both
      operands of the diff, the first side being `A[..a]` and the second
      `B[..b]`, or the other way round when the operands were `swapped`. */
  lemma {:induction false} BackTraceSides<T>(A: seq<T>, B: seq<T>, t: Tree, a: int, b: int, swapped: bool)
    requires Path(A, B, t, a, b)
    ensures ASide(BackTrace(A, B, t, a, b, swapped)) == (if swapped then B[..b] else A[..a])
    ensures BSide(BackTrace(A, B, t, a, b, swapped)) == (if swapped then A[..a] else B[..b])
    decreases t
  {
    match t
    case Root =>
    case Node(op, prev) =>
      var a', b' := if op == Added then a else a - 1, if op == Removed then b else b - 1;
      var e := if op == Added then DiffResult(EditType(Added, swapped), B[b - 1])
               else if op == Removed then DiffResult(EditType(Removed, swapped), A[a - 1])
               else DiffResult(common, A[a - 1]);
      var s := BackTrace(A, B, prev, a', b', swapped);
      assert BackTrace(A, B, t, a, b, swapped) == s + [e];
      BackTraceSides(A, B, prev, a', b', swapped);
      SidesSnoc(s, e);
      PrefixSnoc(A, a, a');
      PrefixSnoc(B, b, b');
  }

  /** A trace of n COMMON steps is the diagonal path from (0, 0) to (n, n)
      of a sequence against itself, and its script tags the first n
      elements `common`, in order. */
  lemma {:induction false} BackTraceCommons<T>(A: seq<T>, n: nat)
    requires n <= |A|
    ensures Path(A, A, Commons(n, Root), n, n)
    ensures BackTrace(A, A, Commons(n, Root), n, n, false) == Tagged(A[..n], common)
  {
    if n > 0 {
      BackTraceCommons(A, n - 1);
      assert A[..n][..n - 1] == A[..n - 1];
    }
  }

  /** Growing a prefix by at most one element appends that element. */
  lemma PrefixSnoc<T>(xs: seq<T>, n: int, m: int)
    requires 0 <= m <= n <= |xs| && n - m <= 1
    ensures xs[..n] == xs[..m] + (if m < n then [xs[m]] else [])
  {
    if m < n {
      assert xs[..n] == xs[..m] + [xs[m]];
    }
  }

  /** The same entry with `removed` and `added` exchanged. */
  function Flip<T>(e: DiffResult<T>): DiffResult<T>
  {
    match e.diffType
    case removed => DiffResult(added, e.value)
    case added => DiffResult(removed, e.value)
    case common => e
  }

  /** Every entry of `s` flipped. */
  function FlipAll<T>(s: seq<DiffResult<T>>): (r: seq<DiffResult<T>>)
    ensures |r| == |s|
    ensures forall i :: 0 <= i < |s| ==> r[i] == Flip(s[i])
  {
    if |s| == 0 then [] else FlipAll(s[..|s| - 1]) + [Flip(s[|s| - 1])]
  }

  /** Swapping the operands changes nothing in the script but the labels:
      ADDED nodes come out as `removed` and REMOVED nodes as `added`. */
  lemma {:induction false} BackTraceSwapped<T>(A: seq<T>, B: seq<T>, t: Tree, a: int, b: int)
    requires Path(A, B, t, a, b)
    ensures BackTrace(A, B, t, a, b, true) == FlipAll(BackTrace(A, B, t, a, b, false))
    decreases t
  {
    match t
    case Root =>
    case Node(op, prev) =>
      var a', b' := if op == Added then a else a - 1, if op == Removed then b else b - 1;
      BackTraceSwapped(A, B, prev, a', b');
      var s := BackTrace(A, B, t, a, b, false);
      assert s[..|s| - 1] == BackTrace(A, B, prev, a', b', false);
  }
}
