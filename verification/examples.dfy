/** The expected outputs of the repository's own test cases
    (lib/index.test.ts), derived from the model round by round.

    Most lemmas take their operands as parameters fixed to the literals by
    `requires`. With literal arguments written directly in the call, the
    verifier would unfold the whole search at once and run out of
    resources; a parameter keeps each round a separate step. The constants
    `<Case>Fp<i>` are the frontier at the loop head after round i - 1, one
    slot per line, labelled with its diagonal. */
module Examples {
  import opened Trace
  import opened Frontier
  import opened Script
  import opened Onp
  import opened Engine

  /** "a" vs "b": the operands share nothing, so the search needs round
      N = 1, whose sweeps read past both ends of the frontier. */
  lemma DiffAB()
    ensures Diff("a", "b") == [DiffResult(removed, 'a'), DiffResult(added, 'b')]
  {
    var A, B := "a", "b";
    var fp0 := Init(A, B);
    var fp1 := [Unreached, Point(0, Root), Unreached];
    assert Round(A, B, fp0, 0) == fp1;
    SearchGoesOn(A, B, fp0, -1, fp1);
    var up := [Point(1, Node(Added, Root)), Point(0, Root), Unreached];
    assert Ascend(A, B, fp1, 1, -1) == up;
    var down := [Point(1, Node(Added, Root)), Point(0, Root), Point(0, Node(Removed, Root))];
    assert Descend(A, B, up, 1, 1) == down;
    var t := Node(Added, Node(Removed, Root));
    var fp2 := down[1 := Point(1, t)];
    assert Round(A, B, fp1, 1) == fp2;
    SearchEnds(A, B, fp1, 0, fp2);
    assert BackTrace(A, B, t, 1, 1, false) == [DiffResult(removed, 'a'), DiffResult(added, 'b')];
  }

  const AAFp0: seq<Point> := [Unreached, Unreached, Unreached]

  const AAFp1: seq<Point> := [Unreached, Point(1, Node(Common, Root)), Unreached]

  /** Round 0 of the search for "a" vs "a": `snake` on diagonal 0. */
  lemma AASnake0At0(A: seq<char>, B: seq<char>)
    requires A == "a" && B == "a"
    ensures Snake(A, B, 0, Unreached, Unreached) == Point(1, Node(Common, Root))
  {
    assert CreateFP(Unreached, Unreached, 0, |A|) == Point(0, Root);
    assert Extend(A, B, 0, Point(0, Root)) == Extend(A, B, 0, Point(1, Node(Common, Root)));
    assert Extend(A, B, 0, Point(1, Node(Common, Root))) == Point(1, Node(Common, Root));
  }

  /** Round 0 of the search for "a" vs "a". */
  lemma AARound0(A: seq<char>, B: seq<char>)
    requires A == "a" && B == "a"
    ensures Shape(A, B, AAFp0, 0)
    ensures Round(A, B, AAFp0, 0) == AAFp1
  {
    var f0 := AAFp0;
    assert Ascend(A, B, f0, 0, 0) == f0;
    assert Descend(A, B, f0, 0, 0) == f0;
    AASnake0At0(A, B);
    assert Update(A, B, f0, 0) == AAFp1;
  }

  /** The backtrace of the final trace for "a" vs "a". */
  lemma AAScript()
    ensures BackTrace("a", "a", Node(Common, Root), 1, 1, false) == [DiffResult(common, 'a')]
  {
  }

  /** The search for "a" vs "a" ends with diagonal delta at row N. */
  lemma AASearch(A: seq<char>, B: seq<char>)
    requires A == "a" && B == "a"
    ensures Operands(A, B)
    ensures Search(A, B, Init(A, B), -1)[1] == Point(1, Node(Common, Root))
  {
    assert Init(A, B) == AAFp0;
    AARound0(A, B);
    SearchEnds(A, B, AAFp0, -1, AAFp1);
  }

  /** "a" vs "a": the script the repository's test case expects. */
  lemma DiffAA(A0: seq<char>, B0: seq<char>)
    requires A0 == "a" && B0 == "a"
    ensures Diff(A0, B0) == [DiffResult(common, 'a')]
  {
    AASearch(A0, B0);
    AAScript();
  }

  const AvsABFp0: seq<Point> := [Unreached, Unreached, Unreached, Unreached]

  const AvsABFp1: seq<Point> := [
    Unreached,  // diagonal -1
    Point(1, Node(Common, Root)),  // diagonal 0
    Point(1, Node(Removed, Node(Common, Root))),  // diagonal 1
    Unreached  // diagonal 2
  ]

  /** Round 0 of the search for "a" vs "a, b": `snake` on diagonal 0. */
  lemma AvsABSnake0At0(A: seq<char>, B: seq<char>)
    requires A == "ab" && B == "a"
    ensures Snake(A, B, 0, Unreached, Unreached) == Point(1, Node(Common, Root))
  {
    assert CreateFP(Unreached, Unreached, 0, |A|) == Point(0, Root);
    assert Extend(A, B, 0, Point(0, Root)) == Extend(A, B, 0, Point(1, Node(Common, Root)));
    assert Extend(A, B, 0, Point(1, Node(Common, Root))) == Point(1, Node(Common, Root));
  }

  /** Round 0 of the search for "a" vs "a, b": `snake` on diagonal 1. */
  lemma AvsABSnake0At1(A: seq<char>, B: seq<char>)
    requires A == "ab" && B == "a"
    ensures Snake(A, B, 1, Point(1, Node(Common, Root)), Unreached) == Point(1, Node(Removed, Node(Common, Root)))
  {
    assert CreateFP(Point(1, Node(Common, Root)), Unreached, 1, |A|) == Point(1, Node(Removed, Node(Common, Root)));
    assert Extend(A, B, 1, Point(1, Node(Removed, Node(Common, Root)))) == Point(1, Node(Removed, Node(Common, Root)));
  }

  /** Round 0 of the search for "a" vs "a, b". */
  lemma AvsABRound0(A: seq<char>, B: seq<char>)
    requires A == "ab" && B == "a"
    ensures Shape(A, B, AvsABFp0, 0)
    ensures Round(A, B, AvsABFp0, 0) == AvsABFp1
  {
    var f0 := AvsABFp0;
    AscendUnfold(A, B, f0, 0, 0);
    AvsABSnake0At0(A, B);
    var f1 := f0[1 := Point(1, Node(Common, Root))];
    assert Update(A, B, f0, 0) == f1;
    assert Ascend(A, B, f1, 0, 1) == f1;
    assert Descend(A, B, f1, 0, 1) == f1;
    AvsABSnake0At1(A, B);
    assert Update(A, B, f1, 1) == AvsABFp1;
  }

  /** The backtrace of the final trace for "a" vs "a, b". */
  lemma AvsABScript()
    ensures BackTrace("ab", "a", Node(Removed, Node(Common, Root)), 2, 1, true) == [
        DiffResult(common, 'a'),
        DiffResult(added, 'b')
      ]
  {
  }

  /** The search for "a" vs "a, b" ends with diagonal delta at row N. */
  lemma AvsABSearch(A: seq<char>, B: seq<char>)
    requires A == "ab" && B == "a"
    ensures Operands(A, B)
    ensures Search(A, B, Init(A, B), -1)[2] == Point(1, Node(Removed, Node(Common, Root)))
  {
    assert Init(A, B) == AvsABFp0;
    AvsABRound0(A, B);
    SearchEnds(A, B, AvsABFp0, -1, AvsABFp1);
  }

  /** "a" vs "a, b": the script the repository's test case expects. */
  lemma DiffAvsAB(A0: seq<char>, B0: seq<char>)
    requires A0 == "a" && B0 == "ab"
    ensures Diff(A0, B0) == [DiffResult(common, 'a'), DiffResult(added, 'b')]
  {
    AvsABSearch(B0, A0);
    AvsABScript();
  }

  // The traces the search builds for "strength" vs "string", each one
  // node on top of an earlier one, named by the point (x, y) of the edit
  // graph they reach.
  const StrengthTo3x3: Tree := Node(Common, Node(Common, Node(Common, Root)))
  const StrengthTo4x3: Tree := Node(Removed, StrengthTo3x3)
  const StrengthTo3x4: Tree := Node(Added, StrengthTo3x3)
  const StrengthTo5x3: Tree := Node(Removed, StrengthTo4x3)
  const StrengthTo4x4: Tree := Node(Added, StrengthTo4x3)
  const StrengthTo5x5: Tree := Node(Common, StrengthTo4x4)
  const StrengthTo6x3: Tree := Node(Removed, StrengthTo5x3)
  const StrengthTo6x6: Tree := Node(Common, StrengthTo5x5)
  const StrengthTo7x6: Tree := Node(Removed, StrengthTo6x6)
  const StrengthTo8x6: Tree := Node(Removed, StrengthTo7x6)

  const StrengthFp0: seq<Point> := [
    Unreached,  // diagonal -6
    Unreached,  // diagonal -5
    Unreached,  // diagonal -4
    Unreached,  // diagonal -3
    Unreached,  // diagonal -2
    Unreached,  // diagonal -1
    Unreached,  // diagonal 0
    Unreached,  // diagonal 1
    Unreached,  // diagonal 2
    Unreached,  // diagonal 3
    Unreached,  // diagonal 4
    Unreached,  // diagonal 5
    Unreached,  // diagonal 6
    Unreached,  // diagonal 7
    Unreached  // diagonal 8
  ]

  const StrengthFp1: seq<Point> := [
    Unreached,  // diagonal -6
    Unreached,  // diagonal -5
    Unreached,  // diagonal -4
    Unreached,  // diagonal -3
    Unreached,  // diagonal -2
    Unreached,  // diagonal -1
    Point(3, StrengthTo3x3),  // diagonal 0
    Point(3, StrengthTo4x3),  // diagonal 1
    Point(3, StrengthTo5x3),  // diagonal 2
    Unreached,  // diagonal 3
    Unreached,  // diagonal 4
    Unreached,  // diagonal 5
    Unreached,  // diagonal 6
    Unreached,  // diagonal 7
    Unreached  // diagonal 8
  ]

  const StrengthFp2: seq<Point> := [
    Unreached,  // diagonal -6
    Unreached,  // diagonal -5
    Unreached,  // diagonal -4
    Unreached,  // diagonal -3
    Unreached,  // diagonal -2
    Point(4, StrengthTo3x4),  // diagonal -1
    Point(6, StrengthTo6x6),  // diagonal 0
    Point(6, StrengthTo7x6),  // diagonal 1
    Point(6, StrengthTo8x6),  // diagonal 2
    Point(3, StrengthTo6x3),  // diagonal 3
    Unreached,  // diagonal 4
    Unreached,  // diagonal 5
    Unreached,  // diagonal 6
    Unreached,  // diagonal 7
    Unreached  // diagonal 8
  ]

  /** Round 0 of the search for "strength" vs "string": `snake` on diagonal 0. */
  lemma StrengthSnake0At0(A: seq<char>, B: seq<char>)
    requires A == "strength" && B == "string"
    ensures Snake(A, B, 0, Unreached, Unreached) == Point(3, StrengthTo3x3)
  {
    assert CreateFP(Unreached, Unreached, 0, |A|) == Point(0, Root);
    assert Extend(A, B, 0, Point(0, Root)) == Extend(A, B, 0, Point(1, Node(Common, Root)));
    assert Extend(A, B, 0, Point(1, Node(Common, Root))) == Extend(A, B, 0, Point(2, Node(Common, Node(Common, Root))));
    assert Extend(A, B, 0, Point(2, Node(Common, Node(Common, Root)))) == Extend(A, B, 0, Point(3, StrengthTo3x3));
    assert Extend(A, B, 0, Point(3, StrengthTo3x3)) == Point(3, StrengthTo3x3);
  }

  /** Round 0 of the search for "strength" vs "string": `snake` on diagonal 1. */
  lemma StrengthSnake0At1(A: seq<char>, B: seq<char>)
    requires A == "strength" && B == "string"
    ensures Snake(A, B, 1, Point(3, StrengthTo3x3), Unreached) == Point(3, StrengthTo4x3)
  {
    assert CreateFP(Point(3, StrengthTo3x3), Unreached, 1, |A|) == Point(3, StrengthTo4x3);
    assert Extend(A, B, 1, Point(3, StrengthTo4x3)) == Point(3, StrengthTo4x3);
  }

  /** Round 0 of the search for "strength" vs "string": `snake` on diagonal 2. */
  lemma StrengthSnake0At2(A: seq<char>, B: seq<char>)
    requires A == "strength" && B == "string"
    ensures Snake(A, B, 2, Point(3, StrengthTo4x3), Unreached) == Point(3, StrengthTo5x3)
  {
    assert CreateFP(Point(3, StrengthTo4x3), Unreached, 2, |A|) == Point(3, StrengthTo5x3);
    assert Extend(A, B, 2, Point(3, StrengthTo5x3)) == Point(3, StrengthTo5x3);
  }

  /** Round 1 of the search for "strength" vs "string": `snake` on diagonal -1. */
  lemma StrengthSnake1AtNeg1(A: seq<char>, B: seq<char>)
    requires A == "strength" && B == "string"
    ensures Snake(A, B, -1, Unreached, Point(3, StrengthTo3x3)) == Point(4, StrengthTo3x4)
  {
    assert CreateFP(Unreached, Point(3, StrengthTo3x3), -1, |A|) == Point(4, StrengthTo3x4);
    assert Extend(A, B, -1, Point(4, StrengthTo3x4)) == Point(4, StrengthTo3x4);
  }

  /** Round 1 of the search for "strength" vs "string": `snake` on diagonal 0. */
  lemma StrengthSnake1At0(A: seq<char>, B: seq<char>)
    requires A == "strength" && B == "string"
    ensures Snake(A, B, 0, Point(4, StrengthTo3x4), Point(3, StrengthTo4x3)) == Point(6, StrengthTo6x6)
  {
    assert CreateFP(Point(4, StrengthTo3x4), Point(3, StrengthTo4x3), 0, |A|) == Point(4, StrengthTo4x4);
    assert Extend(A, B, 0, Point(4, StrengthTo4x4)) == Extend(A, B, 0, Point(5, StrengthTo5x5));
    assert Extend(A, B, 0, Point(5, StrengthTo5x5)) == Extend(A, B, 0, Point(6, StrengthTo6x6));
    assert Extend(A, B, 0, Point(6, StrengthTo6x6)) == Point(6, StrengthTo6x6);
  }

  /** Round 1 of the search for "strength" vs "string": `snake` on diagonal 1. */
  lemma StrengthSnake1At1(A: seq<char>, B: seq<char>)
    requires A == "strength" && B == "string"
    ensures Snake(A, B, 1, Point(6, StrengthTo6x6), Point(3, StrengthTo5x3)) == Point(6, StrengthTo7x6)
  {
    assert CreateFP(Point(6, StrengthTo6x6), Point(3, StrengthTo5x3), 1, |A|) == Point(6, StrengthTo7x6);
    assert Extend(A, B, 1, Point(6, StrengthTo7x6)) == Point(6, StrengthTo7x6);
  }

  /** Round 1 of the search for "strength" vs "string": `snake` on diagonal 3. */
  lemma StrengthSnake1At3(A: seq<char>, B: seq<char>)
    requires A == "strength" && B == "string"
    ensures Snake(A, B, 3, Point(3, StrengthTo5x3), Unreached) == Point(3, StrengthTo6x3)
  {
    assert CreateFP(Point(3, StrengthTo5x3), Unreached, 3, |A|) == Point(3, StrengthTo6x3);
    assert Extend(A, B, 3, Point(3, StrengthTo6x3)) == Point(3, StrengthTo6x3);
  }

  /** Round 1 of the search for "strength" vs "string": `snake` on diagonal 2. */
  lemma StrengthSnake1At2(A: seq<char>, B: seq<char>)
    requires A == "strength" && B == "string"
    ensures Snake(A, B, 2, Point(6, StrengthTo7x6), Point(3, StrengthTo6x3)) == Point(6, StrengthTo8x6)
  {
    assert CreateFP(Point(6, StrengthTo7x6), Point(3, StrengthTo6x3), 2, |A|) == Point(6, StrengthTo8x6);
    assert Extend(A, B, 2, Point(6, StrengthTo8x6)) == Point(6, StrengthTo8x6);
  }

  /** Round 0 of the search for "strength" vs "string". */
  lemma StrengthRound0(A: seq<char>, B: seq<char>)
    requires A == "strength" && B == "string"
    ensures Shape(A, B, StrengthFp0, 0)
    ensures Round(A, B, StrengthFp0, 0) == StrengthFp1
  {
    var f0 := StrengthFp0;
    AscendUnfold(A, B, f0, 0, 0);
    StrengthSnake0At0(A, B);
    var f1 := f0[6 := Point(3, StrengthTo3x3)];
    assert Update(A, B, f0, 0) == f1;
    AscendUnfold(A, B, f1, 0, 1);
    StrengthSnake0At1(A, B);
    var f2 := f1[7 := Point(3, StrengthTo4x3)];
    assert Update(A, B, f1, 1) == f2;
    assert Ascend(A, B, f2, 0, 2) == f2;
    assert Descend(A, B, f2, 0, 2) == f2;
    StrengthSnake0At2(A, B);
    assert Update(A, B, f2, 2) == StrengthFp1;
  }

  /** Round 1 of the search for "strength" vs "string". */
  lemma StrengthRound1(A: seq<char>, B: seq<char>)
    requires A == "strength" && B == "string"
    ensures Shape(A, B, StrengthFp1, 1)
    ensures Round(A, B, StrengthFp1, 1) == StrengthFp2
  {
    var f0 := StrengthFp1;
    AscendUnfold(A, B, f0, 1, -1);
    StrengthSnake1AtNeg1(A, B);
    var f1 := f0[5 := Point(4, StrengthTo3x4)];
    assert Update(A, B, f0, -1) == f1;
    AscendUnfold(A, B, f1, 1, 0);
    StrengthSnake1At0(A, B);
    var f2 := f1[6 := Point(6, StrengthTo6x6)];
    assert Update(A, B, f1, 0) == f2;
    AscendUnfold(A, B, f2, 1, 1);
    StrengthSnake1At1(A, B);
    var f3 := f2[7 := Point(6, StrengthTo7x6)];
    assert Update(A, B, f2, 1) == f3;
    assert Ascend(A, B, f3, 1, 2) == f3;
    DescendUnfold(A, B, f3, 1, 3);
    StrengthSnake1At3(A, B);
    var f4 := f3[9 := Point(3, StrengthTo6x3)];
    assert Update(A, B, f3, 3) == f4;
    assert Descend(A, B, f4, 1, 2) == f4;
    StrengthSnake1At2(A, B);
    assert Update(A, B, f4, 2) == StrengthFp2;
  }

  /** The backtrace of the final trace for "strength" vs "string". */
  lemma StrengthScript()
    ensures BackTrace("strength", "string", StrengthTo8x6, 8, 6, false) == [
        DiffResult(common, 's'),
        DiffResult(common, 't'),
        DiffResult(common, 'r'),
        DiffResult(removed, 'e'),
        DiffResult(added, 'i'),
        DiffResult(common, 'n'),
        DiffResult(common, 'g'),
        DiffResult(removed, 't'),
        DiffResult(removed, 'h')
      ]
  {
    assert BackTrace("strength", "string", StrengthTo3x3, 3, 3, false) == [
        DiffResult(common, 's'),
        DiffResult(common, 't'),
        DiffResult(common, 'r')
      ];
    assert BackTrace("strength", "string", StrengthTo5x5, 5, 5, false) == [
        DiffResult(common, 's'),
        DiffResult(common, 't'),
        DiffResult(common, 'r'),
        DiffResult(removed, 'e'),
        DiffResult(added, 'i'),
        DiffResult(common, 'n')
      ];
  }

  /** The search for "strength" vs "string" ends with diagonal delta at row N. */
  lemma StrengthSearch(A: seq<char>, B: seq<char>)
    requires A == "strength" && B == "string"
    ensures Operands(A, B)
    ensures Search(A, B, Init(A, B), -1)[8] == Point(6, StrengthTo8x6)
  {
    assert Init(A, B) == StrengthFp0;
    StrengthRound0(A, B);
    StrengthRound1(A, B);
    SearchTwoRounds(A, B, StrengthFp0, -1, StrengthFp1, StrengthFp2);
  }

  /** "strength" vs "string": the script the repository's test case expects. */
  lemma DiffStrength(A0: seq<char>, B0: seq<char>)
    requires A0 == "strength" && B0 == "string"
    ensures Diff(A0, B0) == [
        DiffResult(common, 's'),
        DiffResult(common, 't'),
        DiffResult(common, 'r'),
        DiffResult(removed, 'e'),
        DiffResult(added, 'i'),
        DiffResult(common, 'n'),
        DiffResult(common, 'g'),
        DiffResult(removed, 't'),
        DiffResult(removed, 'h')
      ]
  {
    StrengthSearch(A0, B0);
    StrengthScript();
  }

  // The trace the search ends with for ["abc", "c"] vs
  // ["abc", "bcd", "c"], named by the point (x, y) it reaches.
  const AbcTo3x2: Tree := Node(Common, Node(Removed, Node(Common, Root)))

  const AbcFp0: seq<Point> := [Unreached, Unreached, Unreached, Unreached, Unreached, Unreached]

  const AbcFp1: seq<Point> := [
    Unreached,  // diagonal -2
    Unreached,  // diagonal -1
    Point(1, Node(Common, Root)),  // diagonal 0
    Point(2, AbcTo3x2),  // diagonal 1
    Unreached,  // diagonal 2
    Unreached  // diagonal 3
  ]

  /** Round 0 of the search for ["abc", "c"] vs ["abc", "bcd", "c"]: `snake` on diagonal 0. */
  lemma AbcSnake0At0(A: seq<string>, B: seq<string>)
    requires A == ["abc", "bcd", "c"] && B == ["abc", "c"]
    ensures Snake(A, B, 0, Unreached, Unreached) == Point(1, Node(Common, Root))
  {
    assert CreateFP(Unreached, Unreached, 0, |A|) == Point(0, Root);
    assert Extend(A, B, 0, Point(0, Root)) == Extend(A, B, 0, Point(1, Node(Common, Root)));
    assert Extend(A, B, 0, Point(1, Node(Common, Root))) == Point(1, Node(Common, Root));
  }

  /** Round 0 of the search for ["abc", "c"] vs ["abc", "bcd", "c"]: `snake` on diagonal 1. */
  lemma AbcSnake0At1(A: seq<string>, B: seq<string>)
    requires A == ["abc", "bcd", "c"] && B == ["abc", "c"]
    ensures Snake(A, B, 1, Point(1, Node(Common, Root)), Unreached) == Point(2, AbcTo3x2)
  {
    assert CreateFP(Point(1, Node(Common, Root)), Unreached, 1, |A|) == Point(1, Node(Removed, Node(Common, Root)));
    assert Extend(A, B, 1, Point(1, Node(Removed, Node(Common, Root)))) == Extend(A, B, 1, Point(2, AbcTo3x2));
    assert Extend(A, B, 1, Point(2, AbcTo3x2)) == Point(2, AbcTo3x2);
  }

  /** Round 0 of the search for ["abc", "c"] vs ["abc", "bcd", "c"]. */
  lemma AbcRound0(A: seq<string>, B: seq<string>)
    requires A == ["abc", "bcd", "c"] && B == ["abc", "c"]
    ensures Shape(A, B, AbcFp0, 0)
    ensures Round(A, B, AbcFp0, 0) == AbcFp1
  {
    var f0 := AbcFp0;
    AscendUnfold(A, B, f0, 0, 0);
    AbcSnake0At0(A, B);
    var f1 := f0[2 := Point(1, Node(Common, Root))];
    assert Update(A, B, f0, 0) == f1;
    assert Ascend(A, B, f1, 0, 1) == f1;
    assert Descend(A, B, f1, 0, 1) == f1;
    AbcSnake0At1(A, B);
    assert Update(A, B, f1, 1) == AbcFp1;
  }

  /** The backtrace of the final trace for ["abc", "c"] vs ["abc", "bcd", "c"]. */
  lemma AbcScript()
    ensures BackTrace(["abc", "bcd", "c"], ["abc", "c"], AbcTo3x2, 3, 2, true) == [
        DiffResult(common, "abc"),
        DiffResult(added, "bcd"),
        DiffResult(common, "c")
      ]
  {
  }

  /** The search for ["abc", "c"] vs ["abc", "bcd", "c"] ends with diagonal delta at row N. */
  lemma AbcSearch(A: seq<string>, B: seq<string>)
    requires A == ["abc", "bcd", "c"] && B == ["abc", "c"]
    ensures Operands(A, B)
    ensures Search(A, B, Init(A, B), -1)[3] == Point(2, AbcTo3x2)
  {
    assert Init(A, B) == AbcFp0;
    AbcRound0(A, B);
    SearchEnds(A, B, AbcFp0, -1, AbcFp1);
  }

  /** ["abc", "c"] vs ["abc", "bcd", "c"]: the script the repository's test case expects. */
  lemma DiffAbc(A0: seq<string>, B0: seq<string>)
    requires A0 == ["abc", "c"] && B0 == ["abc", "bcd", "c"]
    ensures Diff(A0, B0) == [DiffResult(common, "abc"), DiffResult(added, "bcd"), DiffResult(common, "c")]
  {
    AbcSearch(B0, A0);
    AbcScript();
  }


  /** Two empty sequences: the empty script. */
  lemma DiffEmpty()
    ensures Diff<char>("", "") == []
  {
  }

  /** "a" vs "": one `removed` entry. */
  lemma DiffAEmpty()
    ensures Diff("a", "") == [DiffResult(removed, 'a')]
  {
  }

  /** "" vs "a": one `added` entry. */
  lemma DiffEmptyA()
    ensures Diff("", "a") == [DiffResult(added, 'a')]
  {
  }

  /** "strength" vs "": every letter `removed`, in order. */
  lemma DiffStrengthEmpty()
    ensures Diff("strength", "") == Tagged("strength", removed)
  {
  }

  /** "" vs "strength": every letter `added`, in order. */
  lemma DiffEmptyStrength()
    ensures Diff("", "strength") == Tagged("strength", added)
  {
  }
}
