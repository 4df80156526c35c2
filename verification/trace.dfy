/** The trace of a farthest-point search: a chain of step nodes, newest first,
    ending in the absent tree of the starting point (lib/index.ts, `Tree`). */
module Trace {

  /** The tag of one step: REMOVED (-1), COMMON (0) and ADDED (1) in the source. */
  datatype Op = Removed | Common | Added

  /** `Root` is the missing tree of the point `{ y: 0 }`; a `Node` is one step
      whose `prev` is the trace it extends. */
  datatype Tree = Root | Node(op: Op, prev: Tree)

  /** Number of steps in a trace. */
  function Length(t: Tree): nat
  {
    match t
    case Root => 0
    case Node(_, prev) => Length(prev) + 1
  }

  /** Number of steps of a trace tagged `op`. */
  function Count(t: Tree, op: Op): nat
  {
    match t
    case Root => 0
    case Node(o, prev) => Count(prev, op) + (if o == op then 1 else 0)
  }

  /** `t` extended by `n` COMMON steps. */
  function Commons(n: nat, t: Tree): (r: Tree)
    ensures Length(r) == Length(t) + n
    ensures Count(r, Common) == Count(t, Common) + n
    ensures Count(r, Removed) == Count(t, Removed)
    ensures Count(r, Added) == Count(t, Added)
  {
    if n == 0 then t else Node(Common, Commons(n - 1, t))
  }

  /** Adding COMMON steps below the existing ones or on top gives the same trace. */
  lemma {:induction false} CommonsShift(n: nat, t: Tree)
    ensures Commons(n, Node(Common, t)) == Commons(n + 1, t)
  {
    if n > 0 {
      CommonsShift(n - 1, t);
    }
  }

  /** `t` is a path of the edit graph of `A` and `B` from (0, 0) to (x, y):
      REMOVED consumes one element of `A`, ADDED one of `B`, and COMMON one of
      each, only where the two elements are equal. */
  ghost predicate Path<T>(A: seq<T>, B: seq<T>, t: Tree, x: int, y: int)
    decreases t
  {
    && 0 <= x <= |A|
    && 0 <= y <= |B|
    && match t
       case Root => x == 0 && y == 0
       case Node(Removed, prev) => 0 < x && Path(A, B, prev, x - 1, y)
       case Node(Added, prev) => 0 < y && Path(A, B, prev, x, y - 1)
       case Node(Common, prev) => 0 < x && 0 < y && A[x - 1] == B[y - 1] && Path(A, B, prev, x - 1, y - 1)
  }

  /** The counting invariant of a trace that reaches (x, y): its REMOVED and
      COMMON steps consume `x` elements of `A`, its ADDED and COMMON steps `y`
      elements of `B`. */
  lemma {:induction false} PathCounts<T>(A: seq<T>, B: seq<T>, t: Tree, x: int, y: int)
    requires Path(A, B, t, x, y)
    ensures Count(t, Removed) + Count(t, Common) == x
    ensures Count(t, Added) + Count(t, Common) == y
    ensures Length(t) == x + y - Count(t, Common)
    decreases t
  {
    match t
    case Root =>
    case Node(Removed, prev) => PathCounts(A, B, prev, x - 1, y);
    case Node(Added, prev) => PathCounts(A, B, prev, x, y - 1);
    case Node(Common, prev) => PathCounts(A, B, prev, x - 1, y - 1);
  }
}
