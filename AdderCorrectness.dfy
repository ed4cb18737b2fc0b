/** What the carry, sum and adder builders compute on classical basis states.

    The forward adder of quantum_arithmetic.py is the ripple-carry adder of
    Vedral, Barenco and Ekert: an ascending pass of carry cells, a top step,
    and a descending pass that uncomputes the carries and writes the sums. Its
    inverse branch emits exactly the reversed gate list, so it subtracts.
 */
module AdderCorrectness {
  import opened Bits
  import opened Circuits
  import opened QuantumArithmetic
  import opened AdderStructure

  // ---------------------------------------------------------------- cell effects

  function Maj(x: bool, y: bool, z: bool): bool
  {
    (x && y) || (x && z) || (y && z)
  }

  /** Four distinct qubits of a state of the given width. */
  predicate Distinct4(q0: nat, q1: nat, q2: nat, q3: nat, width: nat)
  {
    q0 < width && q1 < width && q2 < width && q3 < width &&
    q0 != q1 && q0 != q2 && q0 != q3 && q1 != q2 && q1 != q3 && q2 != q3
  }

  /** Run(CarryOnto(circuit, ...)) as a state transformer: with the inverse flag
      off, q3 is flipped by the majority of q0, q1, q2 and q2 becomes q1 xor q2;
      with it on, the same map is undone. q0 and q1 never change. */
  lemma {:induction false} CarryEffect(circuit: GateList, s: seq<bool>, q0: nat, q1: nat, q2: nat, q3: nat, inverse: bool)
    requires Distinct4(q0, q1, q2, q3, |s|)
    ensures var u := Run(circuit, s);
      Run(CarryOnto(circuit, q0, q1, q2, q3, inverse), s) ==
        if inverse then u[q3 := u[q3] != Maj(u[q0], u[q1], u[q1] != u[q2])][q2 := u[q1] != u[q2]]
        else u[q3 := u[q3] != Maj(u[q0], u[q1], u[q2])][q2 := u[q1] != u[q2]]
  {
    var u := Run(circuit, s);
    var g1, g2, g3 := if inverse then CCX(q0, q2, q3) else CCX(q1, q2, q3), CX(q1, q2),
                      if inverse then CCX(q1, q2, q3) else CCX(q0, q2, q3);
    assert CarryOnto(circuit, q0, q1, q2, q3, inverse) == Snoc(Snoc(Snoc(circuit, g1), g2), g3);
    assert Run(Snoc(circuit, g1), s) == Apply(g1, u);
    assert Run(Snoc(Snoc(circuit, g1), g2), s) == Apply(g2, Apply(g1, u));
  }

  /** Both branches of sum set q2 to q2 xor q1 xor q0. */
  lemma {:induction false} SumEffect(circuit: GateList, s: seq<bool>, q0: nat, q1: nat, q2: nat, inverse: bool)
    requires q0 < |s| && q1 < |s| && q2 < |s| && q0 != q2 && q1 != q2
    ensures var u := Run(circuit, s);
      Run(SumOnto(circuit, q0, q1, q2, inverse), s) == u[q2 := u[q2] != (u[q1] != u[q0])]
  {
    var u := Run(circuit, s);
    if inverse {
      assert Run(SumOnto(circuit, q0, q1, q2, inverse), s) == Apply(CX(q1, q2), Apply(CX(q0, q2), u));
    } else {
      assert Run(SumOnto(circuit, q0, q1, q2, inverse), s) == Apply(CX(q0, q2), Apply(CX(q1, q2), u));
    }
  }

  /** The inverse carry right after the forward one restores every basis state. */
  lemma {:induction false} CarryRoundTrip(circuit: GateList, s: seq<bool>, q0: nat, q1: nat, q2: nat, q3: nat)
    requires Distinct4(q0, q1, q2, q3, |s|)
    ensures Run(CarryOnto(CarryOnto(circuit, q0, q1, q2, q3, false), q0, q1, q2, q3, true), s) == Run(circuit, s)
  {
    CarryEffect(circuit, s, q0, q1, q2, q3, false);
    CarryEffect(CarryOnto(circuit, q0, q1, q2, q3, false), s, q0, q1, q2, q3, true);
  }

  /** Sum is its own inverse: any two sums on the same qubits cancel. */
  lemma {:induction false} SumRoundTrip(circuit: GateList, s: seq<bool>, q0: nat, q1: nat, q2: nat, first: bool, second: bool)
    requires q0 < |s| && q1 < |s| && q2 < |s| && q0 != q2 && q1 != q2
    ensures Run(SumOnto(SumOnto(circuit, q0, q1, q2, first), q0, q1, q2, second), s) == Run(circuit, s)
  {
    SumEffect(circuit, s, q0, q1, q2, first);
    SumEffect(SumOnto(circuit, q0, q1, q2, first), s, q0, q1, q2, second);
  }

  // ---------------------------------------------------------------- the forward adder

  predicate Disjoint(off1: nat, len1: nat, off2: nat, len2: nat)
  {
    off1 + len1 <= off2 || off2 + len2 <= off1
  }

  /** The adder's registers exist and do not overlap. */
  predicate ValidRegs(R: AdderRegs, width: nat)
  {
    R.n >= 1 && R.a + R.n <= width && R.b + R.n + 1 <= width && R.c + R.n <= width &&
    Disjoint(R.a, R.n, R.b, R.n + 1) && Disjoint(R.a, R.n, R.c, R.n) && Disjoint(R.b, R.n + 1, R.c, R.n)
  }

  /** The carry into b[n] and the cx(a[n-1], b[n-1]) after it: only b[n] changes. */
  lemma {:induction false} TopCarryEffect(circuit: GateList, s: seq<bool>, ct: nat, at: nat, bt: nat, bn: nat)
    requires Distinct4(ct, at, bt, bn, |s|)
    ensures var u := Run(circuit, s);
      Run(Snoc(CarryOnto(circuit, ct, at, bt, bn, false), CX(at, bt)), s) == u[bn := u[bn] != Maj(u[ct], u[at], u[bt])]
  {
    var u := Run(circuit, s);
    var carried := CarryOnto(circuit, ct, at, bt, bn, false);
    CarryEffect(circuit, s, ct, at, bt, bn, false);
    UndoXor(u, Run(carried, s), ct, at, bt, bn);
  }

  /** The gates of the top step as a state transformer. */
  lemma {:induction false} TopEffect(circuit: GateList, s: seq<bool>, R: AdderRegs)
    requires R.n >= 1 && Distinct4(R.c + R.n - 1, R.a + R.n - 1, R.b + R.n - 1, R.b + R.n, |s|)
    ensures Run(TopOnto(circuit, R, false), s) == TopMap(Run(circuit, s), R.c + R.n - 1, R.a + R.n - 1, R.b + R.n - 1, R.b + R.n)
  {
    TopGates(TopOnto(circuit, R, false), circuit, s, R.c + R.n - 1, R.a + R.n - 1, R.b + R.n - 1, R.b + R.n);
  }

  /** The top step's gates on four given qubits. */
  lemma {:induction false} TopGates(g: GateList, circuit: GateList, s: seq<bool>, ct: nat, at: nat, bt: nat, bn: nat)
    requires Distinct4(ct, at, bt, bn, |s|)
    requires g == SumOnto(Snoc(CarryOnto(circuit, ct, at, bt, bn, false), CX(at, bt)), ct, at, bt, false)
    ensures Run(g, s) == TopMap(Run(circuit, s), ct, at, bt, bn)
  {
    var carried := CarryOnto(circuit, ct, at, bt, bn, false);
    var u, u1 := Run(circuit, s), Run(Snoc(carried, CX(at, bt)), s);
    TopCarryEffect(circuit, s, ct, at, bt, bn);
    SumEffect(Snoc(carried, CX(at, bt)), s, ct, at, bt, false);
    TopSum(u, u1, Run(g, s), ct, at, bt, bn);
  }

  /** The top step on four qubits of a basis state: bn is flipped by the
      majority of ct, at, bt and bt becomes bt xor at xor ct. */
  function TopMap(u: seq<bool>, ct: nat, at: nat, bt: nat, bn: nat): (r: seq<bool>)
    requires ct < |u| && at < |u| && bt < |u| && bn < |u|
  {
    u[bn := u[bn] != Maj(u[ct], u[at], u[bt])][bt := u[bt] != (u[at] != u[ct])]
  }

  lemma {:induction false} TopSum(u: seq<bool>, u1: seq<bool>, w: seq<bool>, ct: nat, at: nat, bt: nat, bn: nat)
    requires Distinct4(ct, at, bt, bn, |u|)
    requires u1 == u[bn := u[bn] != Maj(u[ct], u[at], u[bt])]
    requires w == u1[bt := u1[bt] != (u1[at] != u1[ct])]
    ensures w == TopMap(u, ct, at, bt, bn)
  {
  }

  /** The cx(a[n-1], b[n-1]) of the top step undoes the xor the carry left in b[n-1]. */
  lemma {:induction false} UndoXor(u: seq<bool>, u1: seq<bool>, ct: nat, at: nat, bt: nat, bn: nat)
    requires Distinct4(ct, at, bt, bn, |u|)
    requires u1 == u[bn := u[bn] != Maj(u[ct], u[at], u[bt])][bt := u[at] != u[bt]]
    ensures Apply(CX(at, bt), u1) == u[bn := u[bn] != Maj(u[ct], u[at], u[bt])]
  {
  }

  /** Full addition of three bits and the old top bit, modulo 4. */
  lemma {:induction false} TopArith(x: bool, y: bool, z: bool, o: bool)
    ensures Low(B2N(x) + (B2N(y) + 2 * B2N(o)) + B2N(z), 2) == B2N(y != (x != z)) + 2 * B2N(o != Maj(z, x, y))
  {
  }

  /** The effect of the top step read as values: the two-bit register b[n-1..n]
      receives a[n-1] + b[n-1..n] + c[n-1] modulo 4. */
  lemma {:induction false} TopWritten(u: seq<bool>, w: seq<bool>, ct: nat, at: nat, bt: nat, bn: nat)
    requires bn == bt + 1 && Distinct4(ct, at, bt, bn, |u|) && w == TopMap(u, ct, at, bt, bn)
    ensures Written(u, w, bt, 2, Val(u, at, 1) + Val(u, bt, 2) + B2N(u[ct]))
  {
    assert Val(u, at, 1) == B2N(u[at]);
    assert Val(u, bt, 2) == B2N(u[bt]) + 2 * B2N(u[bt + 1]);
    assert Val(w, bt, 2) == B2N(w[bt]) + 2 * B2N(w[bt + 1]);
    TopArith(u[at], u[bt], u[ct], u[bt + 1]);
  }

  /** The top step: bit n - 1 of the sum and the overflow into b[n]; it is
      the whole of the adder's part for the last bit. */
  lemma {:induction false} TopCorrect(u: seq<bool>, R: AdderRegs, j: nat)
    requires ValidRegs(R, |u|) && j + 1 == R.n
    ensures Written(u, Run(TopOnto(Empty, R, false), u), R.b + j, R.n - j + 1,
                    Val(u, R.a + j, R.n - j) + Val(u, R.b + j, R.n - j + 1) + B2N(u[R.c + j]))
  {
    var w := Run(TopOnto(Empty, R, false), u);
    TopEffect(Empty, u, R);
    TopWritten(u, w, R.c + R.n - 1, R.a + R.n - 1, R.b + R.n - 1, R.b + R.n);
    TopWidths(u, w, R, j);
  }

  /** For the last bit the registers from j on are one and two qubits wide. */
  lemma {:induction false} TopWidths(u: seq<bool>, w: seq<bool>, R: AdderRegs, j: nat)
    requires ValidRegs(R, |u|) && j + 1 == R.n
    requires Written(u, w, R.b + R.n - 1, 2, Val(u, R.a + R.n - 1, 1) + Val(u, R.b + R.n - 1, 2) + B2N(u[R.c + R.n - 1]))
    ensures Written(u, w, R.b + j, R.n - j + 1, Val(u, R.a + j, R.n - j) + Val(u, R.b + j, R.n - j + 1) + B2N(u[R.c + j]))
  {
    assert R.n - j + 1 == 2 && R.n - j == 1 && R.a + R.n - 1 == R.a + j && R.b + R.n - 1 == R.b + j && R.c + R.n - 1 == R.c + j;
  }

  /** Qubit q lies outside the register [off, off + len). */
  predicate Outside(q: nat, off: nat, len: nat)
  {
    q < off || off + len <= q
  }

  /** The carry cell on four qubits of a basis state: cn is flipped by the
      majority of ci, ai, bi and bi becomes ai xor bi. */
  function CarryMap(u: seq<bool>, ci: nat, ai: nat, bi: nat, cn: nat): (r: seq<bool>)
    requires ci < |u| && ai < |u| && bi < |u| && cn < |u|
  {
    u[cn := u[cn] != Maj(u[ci], u[ai], u[bi])][bi := u[ai] != u[bi]]
  }

  /** The uncarry-and-sum cell on four qubits of a basis state: the carry
      cell's map undone, then bi becomes bi xor ai xor ci. */
  function UncarrySumMap(v: seq<bool>, ci: nat, ai: nat, bi: nat, cn: nat): (r: seq<bool>)
    requires ci < |v| && ai < |v| && bi < |v| && cn < |v|
  {
    var v1 := v[cn := v[cn] != Maj(v[ci], v[ai], v[ai] != v[bi])][bi := v[ai] != v[bi]];
    v1[bi := v1[bi] != (v1[ai] != v1[ci])]
  }

  /** The qubits one ripple step touches outside the rest of the adder: after
      the carry cell at bit j, the adder on the bits above it (which leaves
      everything outside b[j+1..n] alone) and the uncarry-and-sum cell, only
      b[j..n] has changed, and b[j] is the sum bit. */
  lemma {:induction false} RippleOutside(u: seq<bool>, v: seq<bool>, ci: nat, ai: nat, bi: nat, cn: nat, len: nat)
    requires Distinct4(ci, ai, bi, cn, |u|) && bi + len + 1 <= |u|
    requires Outside(ci, bi, len + 1) && Outside(ai, bi, len + 1) && Outside(cn, bi, len + 1)
    requires !u[cn]
    requires SameOutside(CarryMap(u, ci, ai, bi, cn), v, bi + 1, len)
    ensures var w := UncarrySumMap(v, ci, ai, bi, cn);
      SameOutside(u, w, bi, len + 1) && w[bi] == (u[bi] != (u[ai] != u[ci])) &&
      Val(w, bi + 1, len) == Val(v, bi + 1, len)
  {
    var u1, w := CarryMap(u, ci, ai, bi, cn), UncarrySumMap(v, ci, ai, bi, cn);
    assert v[ci] == u1[ci] == u[ci] && v[ai] == u1[ai] == u[ai];
    assert v[bi] == u1[bi] == (u[ai] != u[bi]) && v[cn] == u1[cn] == Maj(u[ci], u[ai], u[bi]);
    forall q | 0 <= q < |u| && !(bi <= q < bi + len + 1)
      ensures w[q] == u[q]
    {
      if q != cn {
        assert w[q] == v[q] == u1[q];
      }
    }
    var v0 := v[cn := v[cn] != Maj(v[ci], v[ai], v[ai] != v[bi])];
    var v1 := v0[bi := v[ai] != v[bi]];
    ValUpdate(v, cn, v[cn] != Maj(v[ci], v[ai], v[ai] != v[bi]), bi + 1, len);
    ValUpdate(v0, bi, v[ai] != v[bi], bi + 1, len);
    ValUpdate(v1, bi, v1[bi] != (v1[ai] != v1[ci]), bi + 1, len);
  }

  /** The value side of one ripple step: the sum bit at j plus twice the
      (n - j)-bit sum above it, carried in by the majority, is the
      (n + 1 - j)-bit sum at j. */
  lemma {:induction false} RippleValue(u: seq<bool>, v: seq<bool>, w: seq<bool>, ci: nat, ai: nat, bi: nat, len: nat)
    requires len >= 1 && ci < |u| && ai + len <= |u| && bi + len + 1 <= |u| && |v| == |u| && |w| == |u|
    requires Val(v, bi + 1, len) ==
      Low(Val(u, ai + 1, len - 1) + Val(u, bi + 1, len) + B2N(Maj(u[ci], u[ai], u[bi])), len)
    requires Val(w, bi + 1, len) == Val(v, bi + 1, len)
    requires w[bi] == (u[bi] != (u[ai] != u[ci]))
    ensures Val(w, bi, len + 1) == Low(Val(u, ai, len) + Val(u, bi, len + 1) + B2N(u[ci]), len + 1)
  {
    var above := Val(u, ai + 1, len - 1) + Val(u, bi + 1, len) + B2N(Maj(u[ci], u[ai], u[bi]));
    var total := Val(u, ai, len) + Val(u, bi, len + 1) + B2N(u[ci]);
    assert total == B2N(w[bi]) + 2 * above;
    assert total % 2 == B2N(w[bi]) && total / 2 == above;
  }

  /** Where the qubits of bit j of the adder lie relative to its registers. */
  lemma {:induction false} RippleQubits(R: AdderRegs, j: nat, width: nat)
    requires ValidRegs(R, width) && j + 1 < R.n
    ensures var ci, ai, bi, cn := R.c + j, R.a + j, R.b + j, R.c + j + 1;
      Distinct4(ci, ai, bi, cn, width) &&
      Outside(ci, bi, R.n - j + 1) && Outside(ai, bi, R.n - j + 1) && Outside(cn, bi, R.n - j + 1) &&
      Outside(cn, ai + 1, R.n - j - 1) && Outside(bi, ai + 1, R.n - j - 1)
  {
  }

  /** Changing a qubit outside a register does not change its value. */
  lemma {:induction false} ValUpdate(u: seq<bool>, p: nat, x: bool, off: nat, len: nat)
    requires p < |u| && off + len <= |u| && Outside(p, off, len)
    ensures Val(u[p := x], off, len) == Val(u, off, len)
    decreases len
  {
    if len > 0 {
      ValUpdate(u, p, x, off + 1, len - 1);
    }
  }

  /** The carry cell changes neither register above bit j. */
  lemma {:induction false} CarryMapAbove(u: seq<bool>, ci: nat, ai: nat, bi: nat, cn: nat, len: nat)
    requires Distinct4(ci, ai, bi, cn, |u|) && len >= 1 && ai + len <= |u| && bi + len + 1 <= |u|
    requires Outside(cn, bi + 1, len) && Outside(cn, ai + 1, len - 1) && Outside(bi, ai + 1, len - 1)
    ensures var u1 := CarryMap(u, ci, ai, bi, cn);
      Val(u1, ai + 1, len - 1) == Val(u, ai + 1, len - 1) && Val(u1, bi + 1, len) == Val(u, bi + 1, len)
  {
    var carried := u[cn := u[cn] != Maj(u[ci], u[ai], u[bi])];
    ValUpdate(u, cn, u[cn] != Maj(u[ci], u[ai], u[bi]), ai + 1, len - 1);
    ValUpdate(carried, bi, u[ai] != u[bi], ai + 1, len - 1);
    ValUpdate(u, cn, u[cn] != Maj(u[ci], u[ai], u[bi]), bi + 1, len);
    ValUpdate(carried, bi, u[ai] != u[bi], bi + 1, len);
  }

  /** One bit of the ripple: the carry cell at bit j, the rest of the adder
      on bits j + 1 .. n - 1, and the uncarry-and-sum cell at bit j. */
  lemma {:induction false} RippleRaw(u: seq<bool>, v: seq<bool>, ci: nat, ai: nat, bi: nat, cn: nat, len: nat)
    requires Distinct4(ci, ai, bi, cn, |u|) && len >= 1 && ai + len <= |u| && bi + len + 1 <= |u|
    requires Outside(ci, bi, len + 1) && Outside(ai, bi, len + 1) && Outside(cn, bi, len + 1)
    requires Outside(cn, ai + 1, len - 1) && Outside(bi, ai + 1, len - 1)
    requires !u[cn]
    requires var u1 := CarryMap(u, ci, ai, bi, cn);
      Written(u1, v, bi + 1, len, Val(u1, ai + 1, len - 1) + Val(u1, bi + 1, len) + B2N(u1[cn]))
    ensures Written(u, UncarrySumMap(v, ci, ai, bi, cn), bi, len + 1, Val(u, ai, len) + Val(u, bi, len + 1) + B2N(u[ci]))
  {
    CarryMapAbove(u, ci, ai, bi, cn, len);
    RippleOutside(u, v, ci, ai, bi, cn, len);
    RippleValue(u, v, UncarrySumMap(v, ci, ai, bi, cn), ci, ai, bi, len);
  }

  lemma {:induction false} RippleStep(u: seq<bool>, v: seq<bool>, R: AdderRegs, j: nat)
    requires ValidRegs(R, |u|) && j + 1 < R.n
    requires !u[R.c + j + 1]
    requires var u1 := CarryMap(u, R.c + j, R.a + j, R.b + j, R.c + j + 1);
      Written(u1, v, R.b + (j + 1), R.n - (j + 1) + 1,
              Val(u1, R.a + (j + 1), R.n - (j + 1)) + Val(u1, R.b + (j + 1), R.n - (j + 1) + 1) + B2N(u1[R.c + (j + 1)]))
    ensures Written(u, UncarrySumMap(v, R.c + j, R.a + j, R.b + j, R.c + j + 1), R.b + j, R.n - j + 1,
                    Val(u, R.a + j, R.n - j) + Val(u, R.b + j, R.n - j + 1) + B2N(u[R.c + j]))
  {
    assert R.b + (j + 1) == R.b + j + 1 && R.n - (j + 1) + 1 == R.n - j && R.a + (j + 1) == R.a + j + 1 &&
           R.n - (j + 1) == R.n - j - 1 && R.c + (j + 1) == R.c + j + 1;
    RippleQubits(R, j, |u|);
    RippleRaw(u, v, R.c + j, R.a + j, R.b + j, R.c + j + 1, R.n - j);
  }

  /** Any gate list shaped like the forward adder's part for bits j .. n - 1
      adds a[j..], b[j..] and the carry c[j] into b[j..], provided the carries
      above j start at 0. */
  lemma {:induction false} PartCorrect(g: GateList, u: seq<bool>, R: AdderRegs, j: nat)
    requires ValidRegs(R, |u|) && IsPart(g, R, j)
    requires Zero(u, R.c + j + 1, R.n - j - 1)
    ensures Written(u, Run(g, u), R.b + j, R.n - j + 1,
                    Val(u, R.a + j, R.n - j) + Val(u, R.b + j, R.n - j + 1) + B2N(u[R.c + j]))
    decreases R.n - j, 1
  {
    if j + 1 == R.n {
      TopCorrect(u, R, j);
    } else {
      var up, down := CellOnto(Empty, R, CarryUp, j), CellOnto(Empty, R, CarryDownSum, j);
      var x :| IsPart(x, R, j + 1) && g == Concat(up, Concat(x, down));
      RippleQubits(R, j, |u|);
      RunConcat(up, Concat(x, down), u);
      RunConcat(x, down, Run(up, u));
      UpRun(u, R, j);
      DownRun(Run(x, Run(up, u)), R, j);
      PartAbove(x, u, R, j);
    }
  }

  /** The carry cell at bit j, then a part for the bits above, then the
      uncarry-and-sum cell at j, as a step of the induction in PartCorrect. */
  lemma {:induction false} PartAbove(x: GateList, u: seq<bool>, R: AdderRegs, j: nat)
    requires ValidRegs(R, |u|) && j + 1 < R.n && IsPart(x, R, j + 1)
    requires Zero(u, R.c + j + 1, R.n - j - 1)
    ensures var ci, ai, bi, cn := R.c + j, R.a + j, R.b + j, R.c + j + 1;
      Written(u, UncarrySumMap(Run(x, CarryMap(u, ci, ai, bi, cn)), ci, ai, bi, cn), R.b + j, R.n - j + 1,
              Val(u, R.a + j, R.n - j) + Val(u, R.b + j, R.n - j + 1) + B2N(u[R.c + j]))
    decreases R.n - j, 0
  {
    var u1 := CarryMap(u, R.c + j, R.a + j, R.b + j, R.c + j + 1);
    ZeroAbove(u, R, j);
    PartCorrect(x, u1, R, j + 1);
    RippleStep(u, Run(x, u1), R, j);
  }

  /** The carry cell at bit j changes only c[j+1] and b[j], so the carries above j + 1 stay 0. */
  lemma {:induction false} ZeroAbove(u: seq<bool>, R: AdderRegs, j: nat)
    requires ValidRegs(R, |u|) && j + 1 < R.n
    requires Zero(u, R.c + j + 1, R.n - j - 1)
    ensures !u[R.c + j + 1]
    ensures Zero(CarryMap(u, R.c + j, R.a + j, R.b + j, R.c + j + 1), R.c + (j + 1) + 1, R.n - (j + 1) - 1)
  {
  }

  /** The carry cell at bit j as a state transformer. */
  lemma {:induction false} UpRun(u: seq<bool>, R: AdderRegs, j: nat)
    requires Distinct4(R.c + j, R.a + j, R.b + j, R.c + j + 1, |u|)
    ensures Run(CellOnto(Empty, R, CarryUp, j), u) == CarryMap(u, R.c + j, R.a + j, R.b + j, R.c + j + 1)
  {
    UpCell(u, R, j);
    UpCarry(Empty, u, R, j);
  }

  lemma {:induction false} UpCell(u: seq<bool>, R: AdderRegs, j: nat)
    ensures Run(CellOnto(Empty, R, CarryUp, j), u) == Run(CarryOnto(Empty, R.c + j, R.a + j, R.b + j, R.c + j + 1, false), u)
  {
  }

  lemma {:induction false} UpCarry(circuit: GateList, s: seq<bool>, R: AdderRegs, j: nat)
    requires Distinct4(R.c + j, R.a + j, R.b + j, R.c + j + 1, |s|)
    ensures Run(CarryOnto(circuit, R.c + j, R.a + j, R.b + j, R.c + j + 1, false), s) ==
      CarryMap(Run(circuit, s), R.c + j, R.a + j, R.b + j, R.c + j + 1)
  {
    CarryForward(circuit, s, R.c + j, R.a + j, R.b + j, R.c + j + 1);
  }

  lemma {:induction false} CarryForward(circuit: GateList, s: seq<bool>, q0: nat, q1: nat, q2: nat, q3: nat)
    requires Distinct4(q0, q1, q2, q3, |s|)
    ensures Run(CarryOnto(circuit, q0, q1, q2, q3, false), s) == CarryMap(Run(circuit, s), q0, q1, q2, q3)
  {
    CarryEffect(circuit, s, q0, q1, q2, q3, false);
  }

  /** The uncarry-and-sum cell at bit j as a state transformer. */
  lemma {:induction false} DownRun(v: seq<bool>, R: AdderRegs, j: nat)
    requires Distinct4(R.c + j, R.a + j, R.b + j, R.c + j + 1, |v|)
    ensures Run(CellOnto(Empty, R, CarryDownSum, j), v) == UncarrySumMap(v, R.c + j, R.a + j, R.b + j, R.c + j + 1)
  {
    DownCell(v, R, j);
    DownUncarry(Empty, v, R, j);
  }

  lemma {:induction false} DownCell(v: seq<bool>, R: AdderRegs, j: nat)
    ensures Run(CellOnto(Empty, R, CarryDownSum, j), v) ==
      Run(SumOnto(CarryOnto(Empty, R.c + j, R.a + j, R.b + j, R.c + j + 1, true), R.c + j, R.a + j, R.b + j, false), v)
  {
  }

  lemma {:induction false} DownUncarry(circuit: GateList, s: seq<bool>, R: AdderRegs, j: nat)
    requires Distinct4(R.c + j, R.a + j, R.b + j, R.c + j + 1, |s|)
    ensures Run(SumOnto(CarryOnto(circuit, R.c + j, R.a + j, R.b + j, R.c + j + 1, true), R.c + j, R.a + j, R.b + j, false), s) ==
      UncarrySumMap(Run(circuit, s), R.c + j, R.a + j, R.b + j, R.c + j + 1)
  {
    UncarrySumEffect(circuit, s, R.c + j, R.a + j, R.b + j, R.c + j + 1);
  }

  /** The inverse carry followed by the forward sum on the same four qubits. */
  lemma {:induction false} UncarrySumEffect(circuit: GateList, s: seq<bool>, ci: nat, ai: nat, bi: nat, cn: nat)
    requires Distinct4(ci, ai, bi, cn, |s|)
    ensures Run(SumOnto(CarryOnto(circuit, ci, ai, bi, cn, true), ci, ai, bi, false), s) ==
      UncarrySumMap(Run(circuit, s), ci, ai, bi, cn)
  {
    CarryEffect(circuit, s, ci, ai, bi, cn, true);
    SumEffect(CarryOnto(circuit, ci, ai, bi, cn, true), s, ci, ai, bi, false);
  }

  // ---------------------------------------------------------------- well-formedness

  lemma {:induction false} CarryWellFormed(circuit: GateList, q0: nat, q1: nat, q2: nat, q3: nat, inverse: bool, width: nat)
    requires AllWellFormed(circuit, width) && Distinct4(q0, q1, q2, q3, width)
    ensures AllWellFormed(CarryOnto(circuit, q0, q1, q2, q3, inverse), width)
  {
  }

  lemma {:induction false} SumWellFormed(circuit: GateList, q0: nat, q1: nat, q2: nat, inverse: bool, width: nat)
    requires AllWellFormed(circuit, width) && q0 < width && q1 < width && q2 < width && q0 != q2 && q1 != q2
    ensures AllWellFormed(SumOnto(circuit, q0, q1, q2, inverse), width)
  {
  }

  /** The cells at bit j below the top name four distinct existing qubits. */
  lemma {:induction false} CellsWellFormed(circuit: GateList, R: AdderRegs, j: nat, width: nat)
    requires AllWellFormed(circuit, width) && Distinct4(R.c + j, R.a + j, R.b + j, R.c + j + 1, width)
    ensures AllWellFormed(CellOnto(circuit, R, CarryUp, j), width)
    ensures AllWellFormed(CellOnto(circuit, R, CarryDownSum, j), width)
  {
    var ci, ai, bi, cn := R.c + j, R.a + j, R.b + j, R.c + j + 1;
    CarryWellFormed(circuit, ci, ai, bi, cn, false, width);
    CarryWellFormed(circuit, ci, ai, bi, cn, true, width);
    SumWellFormed(CarryOnto(circuit, ci, ai, bi, cn, true), ci, ai, bi, false, width);
  }

  lemma {:induction false} TopWellFormed(circuit: GateList, R: AdderRegs, width: nat)
    requires AllWellFormed(circuit, width) && ValidRegs(R, width)
    ensures AllWellFormed(TopOnto(circuit, R, false), width)
  {
    var ct, at, bt, bn := R.c + R.n - 1, R.a + R.n - 1, R.b + R.n - 1, R.b + R.n;
    CarryWellFormed(circuit, ct, at, bt, bn, false, width);
    SumWellFormed(Snoc(CarryOnto(circuit, ct, at, bt, bn, false), CX(at, bt)), ct, at, bt, false, width);
  }

  /** Every gate of the forward adder names existing, pairwise distinct qubits. */
  lemma {:induction false} PartWellFormed(g: GateList, R: AdderRegs, j: nat, width: nat)
    requires ValidRegs(R, width) && IsPart(g, R, j)
    ensures AllWellFormed(g, width)
    decreases R.n - j
  {
    if j + 1 == R.n {
      TopWellFormed(Empty, R, width);
    } else {
      var up, down := CellOnto(Empty, R, CarryUp, j), CellOnto(Empty, R, CarryDownSum, j);
      var x :| IsPart(x, R, j + 1) && g == Concat(up, Concat(x, down));
      RippleQubits(R, j, width);
      CellsWellFormed(Empty, R, j, width);
      PartWellFormed(x, R, j + 1, width);
      ConcatWellFormed(x, down, width);
      ConcatWellFormed(up, Concat(x, down), width);
    }
  }

  /** Both branches of adder append only gates Qiskit accepts. */
  lemma {:induction false} AdderWellFormed(circuit: GateList, R: AdderRegs, inverse: bool, width: nat)
    requires AllWellFormed(circuit, width) && ValidRegs(R, width)
    ensures AllWellFormed(AdderOnto(circuit, R, inverse), width)
  {
    AdderConcat(circuit, R, inverse);
    PartAll(R);
    PartIsPart(R, 0);
    PartWellFormed(Part(R, 0), R, 0, width);
    if inverse {
      AdderInverseIsReverse(R);
      ReverseWellFormed(Part(R, 0), width);
    }
    ConcatWellFormed(circuit, AdderOnto(Empty, R, inverse), width);
  }

  // ---------------------------------------------------------------- both branches

  /** The forward adder on bits 0 .. n - 1 with the carry register at 0. */
  lemma {:induction false} PartZero(g: GateList, u: seq<bool>, R: AdderRegs)
    requires ValidRegs(R, |u|) && IsPart(g, R, 0) && Zero(u, R.c, R.n)
    ensures Written(u, Run(g, u), R.b, R.n + 1, Val(u, R.a, R.n) + Val(u, R.b, R.n + 1))
  {
    PartCorrect(g, u, R, 0);
    assert !u[R.c];
    assert Val(u, R.a + 0, R.n - 0) + Val(u, R.b + 0, R.n - 0 + 1) + B2N(u[R.c + 0]) == Val(u, R.a, R.n) + Val(u, R.b, R.n + 1);
  }

  /** The forward adder: with the carry register at 0, b becomes (a + b) mod
      2^(n + 1), and every qubit outside b, a and c included, keeps its value. */
  lemma {:induction false} AdderForward(circuit: GateList, s: seq<bool>, R: AdderRegs)
    requires ValidRegs(R, |s|)
    requires Zero(Run(circuit, s), R.c, R.n)
    ensures var u := Run(circuit, s);
      Written(u, Run(AdderOnto(circuit, R, false), s), R.b, R.n + 1, Val(u, R.a, R.n) + Val(u, R.b, R.n + 1))
  {
    AdderRun(circuit, s, R);
    PartIsPart(R, 0);
    PartZero(Part(R, 0), Run(circuit, s), R);
  }

  /** Modular arithmetic behind subtraction: adding a back to (b - a) mod m gives b. */
  lemma {:induction false} SubtractAdd(x: nat, y: nat, m: nat)
    requires m > 0 && y < m
    ensures (x + (y - x) % m) % m == y
  {
    var d := (y - x) % m;
    var q := (y - x) / m;
    assert y - x == q * m + d;
    assert x + d == (-q) * m + y;
    ModUnique(x + d, m, -q, y);
  }

  /** The values behind subtraction on a len-bit register: (b - a) mod 2^len
      fits the register, and adding a back gives b. */
  lemma {:induction false} SubtractArith(A: nat, B: nat, len: nat)
    requires B < Pow2(len)
    ensures var d := (B - A) % Pow2(len);
      0 <= d && Low(d, len) == d && Low(A + d, len) == B && Low(B, len) == B
  {
    var d: nat := (B - A) % Pow2(len);
    LowSmall(d, len);
    LowMod(A + d, len);
    SubtractAdd(A, B, Pow2(len));
    LowSmall(B, len);
  }

  /** Rewriting a register of a state that already differs from u only in that register. */
  lemma {:induction false} WrittenRebase(u: seq<bool>, z: seq<bool>, w: seq<bool>, off: nat, len: nat, v: nat)
    requires SameOutside(u, z, off, len) && Written(z, w, off, len, v)
    ensures Written(u, w, off, len, v)
  {
  }

  /** The state that the subtraction should produce: u with (b - a) mod
      2^(n + 1) written into b. The forward adder maps it back to u. */
  lemma {:induction false} ForwardUndoesSubtract(g: GateList, u: seq<bool>, z: seq<bool>, R: AdderRegs)
    requires ValidRegs(R, |u|) && IsPart(g, R, 0) && Zero(u, R.c, R.n)
    requires Written(u, z, R.b, R.n + 1, (Val(u, R.b, R.n + 1) - Val(u, R.a, R.n)) % Pow2(R.n + 1))
    ensures Run(g, z) == u
  {
    var A, B := Val(u, R.a, R.n), Val(u, R.b, R.n + 1);
    SubtractArith(A, B, R.n + 1);
    assert Val(z, R.a, R.n) == A && Zero(z, R.c, R.n) by {
      ValUnchanged(u, z, R.a, R.n);
    }
    PartZero(g, z, R);
    WrittenRebase(u, z, Run(g, z), R.b, R.n + 1, B);
    WrittenSelf(u, Run(g, z), R.b, R.n + 1);
  }

  /** The forward adder's gates run backwards subtract: with the carry
      register at 0, b becomes (b - a) mod 2^(n + 1), and every other qubit
      keeps its value. */
  lemma {:induction false} SubtractCorrect(g: GateList, u: seq<bool>, R: AdderRegs)
    requires ValidRegs(R, |u|) && IsPart(g, R, 0) && Zero(u, R.c, R.n)
    ensures Written(u, Run(Reverse(g), u), R.b, R.n + 1, (Val(u, R.b, R.n + 1) - Val(u, R.a, R.n)) % Pow2(R.n + 1))
  {
    var z := WriteVal(u, R.b, R.n + 1, (Val(u, R.b, R.n + 1) - Val(u, R.a, R.n)) % Pow2(R.n + 1));
    ForwardUndoesSubtract(g, u, z, R);
    PartWellFormed(g, R, 0, |z|);
    RunReverse(g, z);
  }

  /** The inverse adder: with the carry register at 0, b becomes (b - a) mod
      2^(n + 1), and every qubit outside b keeps its value. */
  lemma {:induction false} AdderInverse(circuit: GateList, s: seq<bool>, R: AdderRegs)
    requires ValidRegs(R, |s|)
    requires Zero(Run(circuit, s), R.c, R.n)
    ensures var u := Run(circuit, s);
      Written(u, Run(AdderOnto(circuit, R, true), s), R.b, R.n + 1,
              (Val(u, R.b, R.n + 1) - Val(u, R.a, R.n)) % Pow2(R.n + 1))
  {
    InverseRun(circuit, s, R);
    PartIsPart(R, 0);
    SubtractCorrect(Part(R, 0), Run(circuit, s), R);
  }

  /** The inverse adder undoes the forward adder on every basis state, whatever the carry register holds. */
  lemma {:induction false} AdderRoundTrip(circuit: GateList, s: seq<bool>, R: AdderRegs)
    requires ValidRegs(R, |s|)
    ensures Run(AdderOnto(AdderOnto(circuit, R, false), R, true), s) == Run(circuit, s)
  {
    var u := Run(circuit, s);
    InverseRun(AdderOnto(circuit, R, false), s, R);
    AdderRun(circuit, s, R);
    PartIsPart(R, 0);
    PartWellFormed(Part(R, 0), R, 0, |u|);
    RunReverse(Part(R, 0), u);
  }
}
