/** How the adder's gate list is put together: every builder appends its gates
    after whatever the circuit already holds, the forward adder splits into a
    carry cell, the adder on the bits above and an uncarry-and-sum cell, and the
    inverse branch emits the forward gate list backwards.
 */
module AdderStructure {
  import opened Circuits
  import opened QuantumArithmetic

  // ---------------------------------------------------------------- builders append

  lemma {:induction false} CarryConcat(g: GateList, x: GateList, q0: nat, q1: nat, q2: nat, q3: nat, inverse: bool)
    ensures CarryOnto(Concat(g, x), q0, q1, q2, q3, inverse) == Concat(g, CarryOnto(x, q0, q1, q2, q3, inverse))
  {
    var g1, g2, g3 := if inverse then CCX(q0, q2, q3) else CCX(q1, q2, q3), CX(q1, q2),
                      if inverse then CCX(q1, q2, q3) else CCX(q0, q2, q3);
    assert CarryOnto(x, q0, q1, q2, q3, inverse) == Snoc(Snoc(Snoc(x, g1), g2), g3);
    assert Concat(g, Snoc(Snoc(x, g1), g2)) == Snoc(Snoc(Concat(g, x), g1), g2);
  }

  lemma {:induction false} SumConcat(g: GateList, x: GateList, q0: nat, q1: nat, q2: nat, inverse: bool)
    ensures SumOnto(Concat(g, x), q0, q1, q2, inverse) == Concat(g, SumOnto(x, q0, q1, q2, inverse))
  {
  }

  lemma {:induction false} CellConcat(g: GateList, x: GateList, R: AdderRegs, cell: Cell, i: nat)
    ensures CellOnto(Concat(g, x), R, cell, i) == Concat(g, CellOnto(x, R, cell, i))
  {
    var ci, ai, bi, cn := R.c + i, R.a + i, R.b + i, R.c + i + 1;
    match cell
    case CarryUp =>
      CarryConcat(g, x, ci, ai, bi, cn, false);
    case CarryDown =>
      CarryConcat(g, x, ci, ai, bi, cn, true);
    case CarryDownSum =>
      CarryConcat(g, x, ci, ai, bi, cn, true);
      SumConcat(g, CarryOnto(x, ci, ai, bi, cn, true), ci, ai, bi, false);
    case SumCarryUp =>
      SumConcat(g, x, ci, ai, bi, true);
      CarryConcat(g, SumOnto(x, ci, ai, bi, true), ci, ai, bi, cn, false);
  }

  lemma {:induction false} AscendingConcat(g: GateList, x: GateList, R: AdderRegs, cell: Cell, j: nat, k: nat)
    ensures AscendingOnto(Concat(g, x), R, cell, j, k) == Concat(g, AscendingOnto(x, R, cell, j, k))
    decreases k - j
  {
    if j < k {
      CellConcat(g, x, R, cell, j);
      AscendingConcat(g, CellOnto(x, R, cell, j), R, cell, j + 1, k);
    }
  }

  lemma {:induction false} DescendingConcat(g: GateList, x: GateList, R: AdderRegs, cell: Cell, j: nat, k: nat)
    ensures DescendingOnto(Concat(g, x), R, cell, j, k) == Concat(g, DescendingOnto(x, R, cell, j, k))
    decreases k - j
  {
    if j < k {
      DescendingConcat(g, x, R, cell, j + 1, k);
      CellConcat(g, DescendingOnto(x, R, cell, j + 1, k), R, cell, j);
    }
  }

  lemma {:induction false} TopConcat(g: GateList, x: GateList, R: AdderRegs, inverse: bool)
    requires R.n >= 1
    ensures TopOnto(Concat(g, x), R, inverse) == Concat(g, TopOnto(x, R, inverse))
  {
    var ct, at, bt, bn := R.c + R.n - 1, R.a + R.n - 1, R.b + R.n - 1, R.b + R.n;
    if inverse {
      SumConcat(g, x, ct, at, bt, true);
      CarryConcat(g, Snoc(SumOnto(x, ct, at, bt, true), CX(at, bt)), ct, at, bt, bn, true);
    } else {
      CarryConcat(g, x, ct, at, bt, bn, false);
      SumConcat(g, Snoc(CarryOnto(x, ct, at, bt, bn, false), CX(at, bt)), ct, at, bt, false);
    }
  }

  /** The adder appends its gates to the circuit it is given: running it is
      running the circuit, then the adder built on an empty circuit. */
  lemma {:induction false} AdderConcat(g: GateList, R: AdderRegs, inverse: bool)
    requires R.n >= 1
    ensures AdderOnto(g, R, inverse) == Concat(g, AdderOnto(Empty, R, inverse))
  {
    var up, cellUp, cellDown := if inverse then SumCarryUp else CarryUp, if inverse then SumCarryUp else CarryUp,
                                if inverse then CarryDown else CarryDownSum;
    var asc := AscendingOnto(Empty, R, cellUp, 0, R.n - 1);
    var top := TopOnto(asc, R, inverse);
    assert Concat(g, Empty) == g;
    AscendingConcat(g, Empty, R, cellUp, 0, R.n - 1);
    TopConcat(g, asc, R, inverse);
    DescendingConcat(g, top, R, cellDown, 0, R.n - 1);
  }

  // ---------------------------------------------------------------- the adder, bit by bit

  /** The adder's gates for bits j .. n - 1, built on an empty circuit: the
      ascending cells `up` for bits j .. n - 2, the top step, and the
      descending cells `down` for bits n - 2 .. j. */
  function AdderFrom(R: AdderRegs, up: Cell, down: Cell, inverse: bool, j: nat): GateList
    requires j < R.n
  {
    DescendingOnto(TopOnto(AscendingOnto(Empty, R, up, j, R.n - 1), R, inverse), R, down, j, R.n - 1)
  }

  /** The forward adder's gates for bits j .. n - 1. */
  function Part(R: AdderRegs, j: nat): GateList
    requires j < R.n
  {
    AdderFrom(R, CarryUp, CarryDownSum, false, j)
  }

  /** The inverse adder's gates for bits j .. n - 1. */
  function InvPart(R: AdderRegs, j: nat): GateList
    requires j < R.n
  {
    AdderFrom(R, SumCarryUp, CarryDown, true, j)
  }

  /** Below the top bit, the gates for bits j .. n - 1 are the cell `up` at j,
      the gates for the bits above, and the cell `down` at j. */
  lemma {:induction false} AdderFromSplit(R: AdderRegs, up: Cell, down: Cell, inverse: bool, j: nat)
    requires j + 1 < R.n
    ensures AdderFrom(R, up, down, inverse, j) ==
      Concat(CellOnto(Empty, R, up, j), Concat(AdderFrom(R, up, down, inverse, j + 1), CellOnto(Empty, R, down, j)))
  {
    var first := CellOnto(Empty, R, up, j);
    var asc := AscendingOnto(Empty, R, up, j + 1, R.n - 1);
    var top := TopOnto(asc, R, inverse);
    var rest := DescendingOnto(top, R, down, j + 1, R.n - 1);
    assert Concat(first, Empty) == first;
    AscendingConcat(first, Empty, R, up, j + 1, R.n - 1);
    TopConcat(first, asc, R, inverse);
    DescendingConcat(first, top, R, down, j + 1, R.n - 1);
    assert Concat(rest, Empty) == rest;
    CellConcat(rest, Empty, R, down, j);
    CellConcat(first, rest, R, down, j);
  }

  lemma {:induction false} PartSplit(R: AdderRegs, j: nat)
    requires j + 1 < R.n
    ensures Part(R, j) == Concat(CellOnto(Empty, R, CarryUp, j), Concat(Part(R, j + 1), CellOnto(Empty, R, CarryDownSum, j)))
  {
    AdderFromSplit(R, CarryUp, CarryDownSum, false, j);
  }

  lemma {:induction false} InvPartSplit(R: AdderRegs, j: nat)
    requires j + 1 < R.n
    ensures InvPart(R, j) == Concat(CellOnto(Empty, R, SumCarryUp, j), Concat(InvPart(R, j + 1), CellOnto(Empty, R, CarryDown, j)))
  {
    AdderFromSplit(R, SumCarryUp, CarryDown, true, j);
  }

  /** Both adders are their gates for bits 0 .. n - 1. */
  lemma {:induction false} PartAll(R: AdderRegs)
    requires R.n >= 1
    ensures AdderOnto(Empty, R, false) == Part(R, 0) && AdderOnto(Empty, R, true) == InvPart(R, 0)
  {
  }

  // ---------------------------------------------------------------- the inverse branch is the reversed forward adder

  /** The list of the gates g1, g2 in that order, and of g1, g2, g3. */
  function Two(g1: Gate, g2: Gate): GateList
  {
    Snoc(Snoc(Empty, g1), g2)
  }

  function Three(g1: Gate, g2: Gate, g3: Gate): GateList
  {
    Snoc(Two(g1, g2), g3)
  }

  lemma {:induction false} ReverseTwo(g1: Gate, g2: Gate)
    ensures Reverse(Two(g1, g2)) == Two(g2, g1)
  {
    assert Reverse(Snoc(Empty, g1)) == Snoc(Empty, g1);
    assert Concat(Snoc(Empty, g2), Snoc(Empty, g1)) == Snoc(Concat(Snoc(Empty, g2), Empty), g1);
  }

  lemma {:induction false} ReverseThree(g1: Gate, g2: Gate, g3: Gate)
    ensures Reverse(Three(g1, g2, g3)) == Three(g3, g2, g1)
  {
    ReverseTwo(g1, g2);
    var first := Snoc(Empty, g3);
    assert Concat(first, Two(g2, g1)) == Snoc(Concat(first, Snoc(Empty, g2)), g1);
    assert Concat(first, Snoc(Empty, g2)) == Snoc(Concat(first, Empty), g2);
  }

  lemma {:induction false} ConcatTwo(x: GateList, g1: Gate, g2: Gate)
    ensures Concat(x, Two(g1, g2)) == Snoc(Snoc(x, g1), g2)
  {
    assert Concat(x, Snoc(Empty, g1)) == Snoc(x, g1);
  }

  lemma {:induction false} ConcatThree(x: GateList, g1: Gate, g2: Gate, g3: Gate)
    ensures Concat(x, Three(g1, g2, g3)) == Snoc(Snoc(Snoc(x, g1), g2), g3)
  {
    ConcatTwo(x, g1, g2);
  }

  /** The inverse carry cell is the forward one backwards. */
  lemma {:induction false} CarryUpReverse(R: AdderRegs, j: nat)
    ensures Reverse(CellOnto(Empty, R, CarryUp, j)) == CellOnto(Empty, R, CarryDown, j)
  {
    var ci, ai, bi, cn := R.c + j, R.a + j, R.b + j, R.c + j + 1;
    ReverseThree(CCX(ai, bi, cn), CX(ai, bi), CCX(ci, bi, cn));
  }

  /** Inverse sum then carry is uncarry then sum backwards. */
  lemma {:induction false} CarryDownSumReverse(R: AdderRegs, j: nat)
    ensures Reverse(CellOnto(Empty, R, CarryDownSum, j)) == CellOnto(Empty, R, SumCarryUp, j)
  {
    var ci, ai, bi, cn := R.c + j, R.a + j, R.b + j, R.c + j + 1;
    var uncarry, sum := Three(CCX(ci, bi, cn), CX(ai, bi), CCX(ai, bi, cn)), Two(CX(ai, bi), CX(ci, bi));
    ConcatTwo(uncarry, CX(ai, bi), CX(ci, bi));
    ReverseConcat(uncarry, sum);
    ReverseThree(CCX(ci, bi, cn), CX(ai, bi), CCX(ai, bi, cn));
    ReverseTwo(CX(ai, bi), CX(ci, bi));
    ConcatThree(Two(CX(ci, bi), CX(ai, bi)), CCX(ai, bi, cn), CX(ai, bi), CCX(ci, bi, cn));
  }

  /** The inverse top step is the forward one backwards. */
  lemma {:induction false} TopReverse(R: AdderRegs)
    requires R.n >= 1
    ensures Reverse(TopOnto(Empty, R, false)) == TopOnto(Empty, R, true)
  {
    var ct, at, bt, bn := R.c + R.n - 1, R.a + R.n - 1, R.b + R.n - 1, R.b + R.n;
    var carry, rest := Three(CCX(at, bt, bn), CX(at, bt), CCX(ct, bt, bn)), Three(CX(at, bt), CX(at, bt), CX(ct, bt));
    ConcatThree(carry, CX(at, bt), CX(at, bt), CX(ct, bt));
    ReverseConcat(carry, rest);
    ReverseThree(CCX(at, bt, bn), CX(at, bt), CCX(ct, bt, bn));
    ReverseThree(CX(at, bt), CX(at, bt), CX(ct, bt));
    ConcatThree(Three(CX(ct, bt), CX(at, bt), CX(at, bt)), CCX(ct, bt, bn), CX(at, bt), CCX(at, bt, bn));
  }

  /** The inverse adder's gates for bits j .. n - 1 are the forward adder's, last gate first. */
  lemma {:induction false} InvPartReverse(R: AdderRegs, j: nat)
    requires j < R.n
    ensures InvPart(R, j) == Reverse(Part(R, j))
    decreases R.n - j
  {
    if j + 1 == R.n {
      TopReverse(R);
    } else {
      var up, down, above := CellOnto(Empty, R, CarryUp, j), CellOnto(Empty, R, CarryDownSum, j), Part(R, j + 1);
      PartSplit(R, j);
      InvPartSplit(R, j);
      InvPartReverse(R, j + 1);
      ReverseConcat(up, Concat(above, down));
      ReverseConcat(above, down);
      CarryUpReverse(R, j);
      CarryDownSumReverse(R, j);
      ConcatAssoc(Reverse(down), Reverse(above), Reverse(up));
    }
  }

  /** The inverse branch of the adder emits the forward branch's gates in reverse order. */
  lemma {:induction false} AdderInverseIsReverse(R: AdderRegs)
    requires R.n >= 1
    ensures AdderOnto(Empty, R, true) == Reverse(AdderOnto(Empty, R, false))
  {
    PartAll(R);
    InvPartReverse(R, 0);
  }

  /** Running the forward adder is running the circuit it was built on, then its part for all bits. */
  lemma {:induction false} AdderRun(circuit: GateList, s: seq<bool>, R: AdderRegs)
    requires R.n >= 1
    ensures Run(AdderOnto(circuit, R, false), s) == Run(Part(R, 0), Run(circuit, s))
  {
    AdderConcat(circuit, R, false);
    PartAll(R);
    RunConcat(circuit, Part(R, 0), s);
  }

  /** Running the inverse adder is running the circuit it was built on, then
      the forward adder's gates backwards. */
  lemma {:induction false} InverseRun(circuit: GateList, s: seq<bool>, R: AdderRegs)
    requires R.n >= 1
    ensures Run(AdderOnto(circuit, R, true), s) == Run(Reverse(Part(R, 0)), Run(circuit, s))
  {
    AdderConcat(circuit, R, true);
    AdderInverseIsReverse(R);
    PartAll(R);
    RunConcat(circuit, Reverse(Part(R, 0)), s);
  }

  /** g has the shape of the forward adder's part for bits j .. n - 1, with the
      part for the bits above left abstract. */
  ghost predicate IsPart(g: GateList, R: AdderRegs, j: nat)
    decreases R.n - j
  {
    j < R.n &&
    if j + 1 == R.n then g == TopOnto(Empty, R, false)
    else exists x :: IsPart(x, R, j + 1) && g == Concat(CellOnto(Empty, R, CarryUp, j), Concat(x, CellOnto(Empty, R, CarryDownSum, j)))
  }

  lemma {:induction false} PartIsPart(R: AdderRegs, j: nat)
    requires j < R.n
    ensures IsPart(Part(R, j), R, j)
    decreases R.n - j
  {
    if j + 1 < R.n {
      PartIsPart(R, j + 1);
      PartSplit(R, j);
    }
  }
}
