/** The reversible arithmetic builders of quantum_arithmetic.py.

    Every builder of the original takes the circuit built so far, appends its
    gates and returns the circuit. Each appears here twice, in that shape: a
    function `XOnto(circuit, ...)` giving the gate list the builder leaves
    behind, and a method `X(circuit, ...)` that appends those gates to a
    Circuit object one by one, with the loops of the original. What the gate
    lists compute on basis states is proved in AdderCorrectness and
    ModularCorrectness.
 */
module QuantumArithmetic {
  import opened Circuits

  /** The qubits of one adder call: the addend register (n qubits from a), the
      accumulator (n + 1 qubits from b, its last qubit the overflow bit) and
      the carry ancilla (n qubits from c). */
  datatype AdderRegs = AdderRegs(a: nat, b: nat, c: nat, n: nat)

  /** The registers of the modular step: a (n qubits), b (n + 1), the modulus
      register N (n), the carry ancilla c (n) and the overflow flag t. */
  datatype Layout = Layout(a: nat, b: nat, modulus: nat, c: nat, t: nat, n: nat)

  /** QuantumCircuit(a, b, N, c, t) in c_fibmodN places the registers one after another. */
  function StdLayout(n: nat): Layout
  {
    Layout(0, n, 2 * n + 1, 3 * n + 1, 4 * n + 1, n)
  }

  /** adder(circuit, a, b, c, ...) inside addmodN. */
  function AddendRegs(L: Layout): AdderRegs
  {
    AdderRegs(L.a, L.b, L.c, L.n)
  }

  /** adder(circuit, N, b, c, ...) inside addmodN: the modulus register is the addend. */
  function ModulusRegs(L: Layout): AdderRegs
  {
    AdderRegs(L.modulus, L.b, L.c, L.n)
  }

  // ---------------------------------------------------------------- carry and sum

  function CarryOnto(circuit: GateList, q0: nat, q1: nat, q2: nat, q3: nat, inverse: bool): GateList
  {
    if inverse then Snoc(Snoc(Snoc(circuit, CCX(q0, q2, q3)), CX(q1, q2)), CCX(q1, q2, q3))
    else Snoc(Snoc(Snoc(circuit, CCX(q1, q2, q3)), CX(q1, q2)), CCX(q0, q2, q3))
  }

  function SumOnto(circuit: GateList, q0: nat, q1: nat, q2: nat, inverse: bool): GateList
  {
    if inverse then Snoc(Snoc(circuit, CX(q0, q2)), CX(q1, q2))
    else Snoc(Snoc(circuit, CX(q1, q2)), CX(q0, q2))
  }

  // ---------------------------------------------------------------- the adder

  /** The four kinds of per-bit step the adder's loops emit at bit i. */
  datatype Cell =
    | CarryUp        // carry(c[i], a[i], b[i], c[i+1])
    | CarryDown      // carry(c[i], a[i], b[i], c[i+1]), inverse
    | CarryDownSum   // inverse carry, then sum
    | SumCarryUp     // inverse sum, then carry

  function CellOnto(circuit: GateList, R: AdderRegs, cell: Cell, i: nat): GateList
  {
    var ci, ai, bi, cn := R.c + i, R.a + i, R.b + i, R.c + i + 1;
    match cell
    case CarryUp => CarryOnto(circuit, ci, ai, bi, cn, false)
    case CarryDown => CarryOnto(circuit, ci, ai, bi, cn, true)
    case CarryDownSum => SumOnto(CarryOnto(circuit, ci, ai, bi, cn, true), ci, ai, bi, false)
    case SumCarryUp => CarryOnto(SumOnto(circuit, ci, ai, bi, true), ci, ai, bi, cn, false)
  }

  /** The cells for bits j, j + 1, ..., k - 1, in that order. */
  function AscendingOnto(circuit: GateList, R: AdderRegs, cell: Cell, j: nat, k: nat): GateList
    decreases k - j
  {
    if j >= k then circuit else AscendingOnto(CellOnto(circuit, R, cell, j), R, cell, j + 1, k)
  }

  /** The cells for bits k - 1, k - 2, ..., j, in that order. */
  function DescendingOnto(circuit: GateList, R: AdderRegs, cell: Cell, j: nat, k: nat): GateList
    decreases k - j
  {
    if j >= k then circuit else CellOnto(DescendingOnto(circuit, R, cell, j + 1, k), R, cell, j)
  }

  /** The gates around the most significant bit, between the adder's two loops. */
  function TopOnto(circuit: GateList, R: AdderRegs, inverse: bool): GateList
    requires R.n >= 1
  {
    var ct, at, bt := R.c + R.n - 1, R.a + R.n - 1, R.b + R.n - 1;
    if inverse then CarryOnto(Snoc(SumOnto(circuit, ct, at, bt, true), CX(at, bt)), ct, at, bt, R.b + R.n, true)
    else SumOnto(Snoc(CarryOnto(circuit, ct, at, bt, R.b + R.n, false), CX(at, bt)), ct, at, bt, false)
  }

  function AdderOnto(circuit: GateList, R: AdderRegs, inverse: bool): GateList
    requires R.n >= 1
  {
    if inverse then
      DescendingOnto(TopOnto(AscendingOnto(circuit, R, SumCarryUp, 0, R.n - 1), R, true), R, CarryDown, 0, R.n - 1)
    else
      DescendingOnto(TopOnto(AscendingOnto(circuit, R, CarryUp, 0, R.n - 1), R, false), R, CarryDownSum, 0, R.n - 1)
  }

  /** One more pass of an ascending loop appends the cell of the next bit. */
  lemma {:induction false} AscendingSnoc(circuit: GateList, R: AdderRegs, cell: Cell, j: nat, k: nat)
    requires j <= k
    ensures AscendingOnto(circuit, R, cell, j, k + 1) == CellOnto(AscendingOnto(circuit, R, cell, j, k), R, cell, k)
    decreases k - j
  {
    if j < k {
      AscendingSnoc(CellOnto(circuit, R, cell, j), R, cell, j + 1, k);
    }
  }

  // ---------------------------------------------------------------- modular addition

  /** circuit.x(N[i]) for every i < k at which the binary string has a '1'. */
  function LoadOnto(circuit: GateList, modBin: string, reg: nat, k: nat): GateList
    requires k <= |modBin|
  {
    if k == 0 then circuit
    else
      var before := LoadOnto(circuit, modBin, reg, k - 1);
      if modBin[k - 1] == '1' then Snoc(before, X(reg + k - 1)) else before
  }

  /** circuit.cx(t, N[i]) for every i < k at which the binary string has a '1'. */
  function ControlledLoadOnto(circuit: GateList, modBin: string, t: nat, reg: nat, k: nat): GateList
    requires k <= |modBin|
  {
    if k == 0 then circuit
    else
      var before := ControlledLoadOnto(circuit, modBin, t, reg, k - 1);
      if modBin[k - 1] == '1' then Snoc(before, CX(t, reg + k - 1)) else before
  }

  /** x(b[-1]); cx(b[-1], t); x(b[-1]): flips t when the top qubit of b is 0. */
  function FlagOnto(circuit: GateList, L: Layout): GateList
  {
    Snoc(Snoc(Snoc(circuit, X(L.b + L.n)), CX(L.b + L.n, L.t)), X(L.b + L.n))
  }

  function AddModNOnto(circuit: GateList, L: Layout, modBin: string): GateList
    requires L.n >= 1
  {
    var added := AdderOnto(circuit, AddendRegs(L), false);
    var reduced := AdderOnto(added, ModulusRegs(L), true);
    var flagged := FlagOnto(reduced, L);
    var cleared := ControlledLoadOnto(flagged, modBin, L.t, L.modulus, |modBin|);
    var restored := AdderOnto(cleared, ModulusRegs(L), false);
    var reloaded := ControlledLoadOnto(restored, modBin, L.t, L.modulus, |modBin|);
    var undone := AdderOnto(reloaded, AddendRegs(L), true);
    var unflagged := Snoc(undone, CX(L.b + L.n, L.t));
    AdderOnto(unflagged, AddendRegs(L), false)
  }

  // ---------------------------------------------------------------- the Fibonacci step

  /** circuit.swap(a[i], b[i]) for every i < k. */
  function SwapsOnto(circuit: GateList, L: Layout, k: nat): GateList
  {
    if k == 0 then circuit else Snoc(SwapsOnto(circuit, L, k - 1), Swap(L.a + k - 1, L.b + k - 1))
  }

  function FibModNOnto(circuit: GateList, L: Layout, modBin: string): GateList
    requires L.n >= 1
  {
    SwapsOnto(AddModNOnto(circuit, L, modBin), L, L.n)
  }

  /** fibmodN applied `iterations` times. */
  function RepeatOnto(circuit: GateList, L: Layout, modBin: string, iterations: nat): GateList
    requires L.n >= 1
  {
    if iterations == 0 then circuit else FibModNOnto(RepeatOnto(circuit, L, modBin, iterations - 1), L, modBin)
  }

  /** The circuit c_fibmodN turns into a gate, on qubits 0 .. 4n + 1 of StdLayout(n). */
  function CFibModNBody(n: nat, modBin: string, power: nat): GateList
    requires n >= 1
  {
    var L := StdLayout(n);
    var loaded := LoadOnto(Empty, modBin, L.modulus, |modBin|);
    LoadOnto(RepeatOnto(loaded, L, modBin, power), modBin, L.modulus, |modBin|)
  }

  /** A gate made from a circuit of `width` qubits by to_gate().control(): its
      qubit 0 is the control and the body's qubit l is its qubit l + 1. */
  datatype ControlledGate = ControlledGate(body: GateList, width: nat)

  // ---------------------------------------------------------------- builders

  method Carry(circuit: Circuit, q0: nat, q1: nat, q2: nat, q3: nat, inverse: bool)
    modifies circuit
    ensures circuit.gates == CarryOnto(old(circuit.gates), q0, q1, q2, q3, inverse)
  {
    if inverse {
      circuit.Append(CCX(q0, q2, q3));
      circuit.Append(CX(q1, q2));
      circuit.Append(CCX(q1, q2, q3));
    } else {
      circuit.Append(CCX(q1, q2, q3));
      circuit.Append(CX(q1, q2));
      circuit.Append(CCX(q0, q2, q3));
    }
  }

  method Sum(circuit: Circuit, q0: nat, q1: nat, q2: nat, inverse: bool)
    modifies circuit
    ensures circuit.gates == SumOnto(old(circuit.gates), q0, q1, q2, inverse)
  {
    if inverse {
      circuit.Append(CX(q0, q2));
      circuit.Append(CX(q1, q2));
    } else {
      circuit.Append(CX(q1, q2));
      circuit.Append(CX(q0, q2));
    }
  }

  method Adder(circuit: Circuit, R: AdderRegs, inverse: bool)
    requires R.n >= 1
    modifies circuit
    ensures circuit.gates == AdderOnto(old(circuit.gates), R, inverse)
  {
    var n, a, b, c := R.n, R.a, R.b, R.c;
    ghost var start := circuit.gates;
    if inverse {
      for i := 0 to n - 1
        invariant circuit.gates == AscendingOnto(start, R, SumCarryUp, 0, i)
      {
        AscendingSnoc(start, R, SumCarryUp, 0, i);
        Sum(circuit, c + i, a + i, b + i, true);
        Carry(circuit, c + i, a + i, b + i, c + i + 1, false);
      }
      Sum(circuit, c + n - 1, a + n - 1, b + n - 1, true);
      circuit.Append(CX(a + n - 1, b + n - 1));
      Carry(circuit, c + n - 1, a + n - 1, b + n - 1, b + n, true);
      ghost var top := circuit.gates;
      var i := n - 1;
      while i > 0
        invariant 0 <= i <= n - 1
        invariant circuit.gates == DescendingOnto(top, R, CarryDown, i, n - 1)
      {
        i := i - 1;
        Carry(circuit, c + i, a + i, b + i, c + i + 1, true);
      }
    } else {
      for i := 0 to n - 1
        invariant circuit.gates == AscendingOnto(start, R, CarryUp, 0, i)
      {
        AscendingSnoc(start, R, CarryUp, 0, i);
        Carry(circuit, c + i, a + i, b + i, c + i + 1, false);
      }
      Carry(circuit, c + n - 1, a + n - 1, b + n - 1, b + n, false);
      circuit.Append(CX(a + n - 1, b + n - 1));
      Sum(circuit, c + n - 1, a + n - 1, b + n - 1, false);
      ghost var top := circuit.gates;
      var i := n - 1;
      while i > 0
        invariant 0 <= i <= n - 1
        invariant circuit.gates == DescendingOnto(top, R, CarryDownSum, i, n - 1)
      {
        i := i - 1;
        Carry(circuit, c + i, a + i, b + i, c + i + 1, true);
        Sum(circuit, c + i, a + i, b + i, false);
      }
    }
  }

  /** The loops `for i, qubit in enumerate(mod_bin): if int(qubit) == 1: circuit.cx(t, N[i])`. */
  method ControlledLoad(circuit: Circuit, modBin: string, t: nat, reg: nat)
    modifies circuit
    ensures circuit.gates == ControlledLoadOnto(old(circuit.gates), modBin, t, reg, |modBin|)
  {
    for i := 0 to |modBin|
      invariant circuit.gates == ControlledLoadOnto(old(circuit.gates), modBin, t, reg, i)
    {
      if modBin[i] == '1' {
        circuit.Append(CX(t, reg + i));
      }
    }
  }

  /** The loops `for i, qubit in enumerate(mod_bin): if int(qubit) == 1: circuit.x(N[i])`. */
  method Load(circuit: Circuit, modBin: string, reg: nat)
    modifies circuit
    ensures circuit.gates == LoadOnto(old(circuit.gates), modBin, reg, |modBin|)
  {
    for i := 0 to |modBin|
      invariant circuit.gates == LoadOnto(old(circuit.gates), modBin, reg, i)
    {
      if modBin[i] == '1' {
        circuit.Append(X(reg + i));
      }
    }
  }

  method AddModN(circuit: Circuit, L: Layout, modBin: string)
    requires L.n >= 1
    modifies circuit
    ensures circuit.gates == AddModNOnto(old(circuit.gates), L, modBin)
  {
    Adder(circuit, AddendRegs(L), false);
    Adder(circuit, ModulusRegs(L), true);
    circuit.Append(X(L.b + L.n));
    circuit.Append(CX(L.b + L.n, L.t));
    circuit.Append(X(L.b + L.n));
    ControlledLoad(circuit, modBin, L.t, L.modulus);
    Adder(circuit, ModulusRegs(L), false);
    ControlledLoad(circuit, modBin, L.t, L.modulus);
    Adder(circuit, AddendRegs(L), true);
    circuit.Append(CX(L.b + L.n, L.t));
    Adder(circuit, AddendRegs(L), false);
  }

  method FibModN(circuit: Circuit, L: Layout, modBin: string)
    requires L.n >= 1
    modifies circuit
    ensures circuit.gates == FibModNOnto(old(circuit.gates), L, modBin)
  {
    AddModN(circuit, L, modBin);
    ghost var added := circuit.gates;
    for i := 0 to L.n
      invariant circuit.gates == SwapsOnto(added, L, i)
    {
      circuit.Append(Swap(L.a + i, L.b + i));
    }
  }

  /** c_fibmodN: load the modulus, apply the step `power` times, unload, and
      wrap the 4n + 2 qubit circuit as a controlled gate. */
  method CFibModN(n: nat, modBin: string, power: nat) returns (g: ControlledGate)
    requires n >= 1
    ensures g == ControlledGate(CFibModNBody(n, modBin, power), 4 * n + 2)
  {
    var L := StdLayout(n);
    var circuit := new Circuit();
    Load(circuit, modBin, L.modulus);
    ghost var loaded := circuit.gates;
    for iteration := 0 to power
      invariant circuit.gates == RepeatOnto(loaded, L, modBin, iteration)
    {
      FibModN(circuit, L, modBin);
    }
    Load(circuit, modBin, L.modulus);
    g := ControlledGate(circuit.gates, 4 * n + 2);
  }
}
