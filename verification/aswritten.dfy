/** The neighbour reads of the round loop exactly as lib/index.ts:82, 85
    and 87 write them. The reads `fp[k - 1 + offset]` and
    `fp[k + 1 + offset]` are not range-checked. On diagonal -N the first
    one is `fp[-1]`, and on diagonal M the second one is `fp[M + N + 1]`.
    Both are `undefined` in JavaScript, and `createFP` then reads `.y` of
    `undefined`, which throws a TypeError. The rest of the model reads such
    a slot as the sentinel instead (`Frontier.At`). */
module AsWritten {
  import opened Trace
  import opened Frontier
  import opened Onp

  /** A JavaScript value that may be `undefined`. */
  datatype Option<T> = Undefined | Defined(value: T)

  /** The outcome of a statement that may throw. */
  datatype Outcome<T> = Throws | Returns(value: T)

  /** `fp[i]` on a JavaScript array: `undefined` outside 0 .. length - 1. */
  function Read(fp: seq<Point>, i: int): (r: Option<Point>)
    ensures r.Defined? <==> 0 <= i < |fp|
    ensures r.Defined? ==> r.value == fp[i]
  {
    if 0 <= i < |fp| then Defined(fp[i]) else Undefined
  }

  /** `createFP` on arguments that may be `undefined`. Line 47 reads
      `slide.y` first. Then either line 47 or the condition on line 48 reads
      `down.y`, whatever `slide` holds. So an undefined argument on either
      side throws. */
  function CreateFPRaw(slide: Option<Point>, down: Option<Point>, k: int, M: int): (r: Outcome<Point>)
    ensures r.Throws? <==> slide.Undefined? || down.Undefined?
    ensures r.Returns? ==> r.value == CreateFP(slide.value, down.value, k, M)
  {
    match slide
    case Undefined => Throws
    case Defined(s) =>
      match down
      case Undefined => Throws
      case Defined(d) => Returns(CreateFP(s, d, k, M))
  }

  /** `snake` on arguments that may be `undefined`. A diagonal outside
      [-N, M] returns the sentinel before either argument is touched. */
  function SnakeRaw<T(==)>(A: seq<T>, B: seq<T>, k: int, slide: Option<Point>, down: Option<Point>): (r: Outcome<Point>)
    ensures r.Throws? <==> -|B| <= k <= |A| && (slide.Undefined? || down.Undefined?)
    ensures r.Returns? && slide.Defined? && down.Defined? ==> r.value == Snake(A, B, k, slide.value, down.value)
  {
    if k < -|B| || |A| < k then Returns(Unreached)
    else
      match CreateFPRaw(slide, down, k, |A|)
      case Throws => Throws
      case Returns(fp) => Returns(Extend(A, B, k, fp))
  }

  /** The statement `fp[k + offset] = snake(k, fp[k - 1 + offset],
      fp[k + 1 + offset], offset, A, B)` as written, on a frontier of
      M + N + 1 slots. It throws exactly on the outermost diagonals -N and M.
      On every other diagonal it does what the model's `Update` does. */
  function StepRaw<T(==)>(A: seq<T>, B: seq<T>, fp: seq<Point>, k: int): (r: Outcome<seq<Point>>)
    requires |fp| == |A| + |B| + 1 && 0 <= k + |B| < |fp|
    ensures r.Throws? <==> k == -|B| || k == |A|
    ensures r.Returns? ==> r.value == Update(A, B, fp, k)
  {
    match SnakeRaw(A, B, k, Read(fp, k - 1 + |B|), Read(fp, k + 1 + |B|))
    case Throws => Throws
    case Returns(pt) => Returns(fp[k + |B| := pt])
  }

  /** Round N, if the search ever gets there, starts its upward sweep on
      diagonal -N, so the statement as written throws. */
  lemma RoundNThrows<T>(A: seq<T>, B: seq<T>, fp: seq<Point>)
    requires Shape(A, B, fp, |B|)
    ensures StepRaw(A, B, fp, -|B|).Throws?
  {
  }

  /** The repository's "a" vs "b" case gets there. Round 0 leaves
      diagonal delta at row 0, below N = 1, so the loop runs round 1, and
      that round's first statement reads `fp[-1]` and throws. The corrected
      reading gives the script the test expects (`Examples.DiffAB`). */
  lemma DiffABThrows()
    ensures var fp1 := Round("a", "b", Init("a", "b"), 0);
            && fp1[1].y < 1
            && StepRaw("a", "b", fp1, -1).Throws?
  {
  }
}
