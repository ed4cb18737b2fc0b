# Fibonacci period finding — arithmetic builders and period recovery

This project models the classical core of a quantum period-finding program for
the Fibonacci sequence modulo N (the Pisano period).

- `quantum_arithmetic.py` builds reversible arithmetic circuits from Toffoli,
  CNOT, NOT and SWAP gates:
  - `carry` and `sum` cells;
  - the ripple-carry `adder` and its inverse;
  - the modular adder `addmodN`;
  - one Fibonacci step `fibmodN`, which maps (a, b) to ((a + b) mod N, a);
  - `c_fibmodN`, the controlled gate that performs `power` such steps.
- `period_fibonacci.py` uses them. It:
  - picks the register sizes from N;
  - wires one controlled `c_fibmodN(n, mod_bin, 2^q)` onto every counting qubit q (`c_U`);
  - turns each measured bitstring s into the phase s / 2^t;
  - turns the phase into a period r with `Fraction.limit_denominator`;
  - adds up the counts of each period (`all_periods`).

What is modelled:

- **Gates and circuits.** Gates act on classical basis states, sequences of
  booleans indexed by qubit number. Registers are little-endian, as in Qiskit
  (`Bits`, `Circuits`).
- **Builders.** Every builder appears twice (`QuantumArithmetic`):
  - a function `XOnto(circuit, ...)` gives the gate list the builder leaves behind;
  - a method `X(circuit, ...)` appends the same gates to a `Circuit` object, with the loops of the original.
- **Correctness proofs.** These state what the gate lists compute:
  - `AdderStructure` and `AdderCorrectness` cover the cells and the adder;
  - `ModularCorrectness` covers `addmodN`;
  - `FibonacciCorrectness` covers `fibmodN` and `c_fibmodN`.
- **Circuit construction** (`PeriodFibonacci`):
  - the power-of-two test and the register sizes;
  - the value the N register really holds;
  - `c_U` and its meaning on basis states. The control qubit of each placed gate decides whether the gate body runs.
- **Post-processing** (`PeriodRecovery`, `Fractions`). The phase is an exact
  dyadic fraction. `limit_denominator` follows CPython's continued-fraction
  search, and it is proved to return the closest fraction within the bound.

## Model

| member | source | states |
|---|---|---|
| `QuantumArithmetic.CarryOnto` | quantum_arithmetic.py:12-19 | The gate list of `carry`, for both values of `inverse`. Its effect on states is stated by `CarryEffect`. |
| `QuantumArithmetic.Carry` | quantum_arithmetic.py:3-21 | Appends to the circuit object exactly the gates `CarryOnto` lists after the gates it already held. |
| `AdderCorrectness.CarryEffect` | quantum_arithmetic.py:12-19 | Forward: q3 ^= maj(q0, q1, q2) and q2 ^= q1. Inverse: the exact undo of the forward map. No other qubit changes. |
| `AdderCorrectness.CarryRoundTrip` | quantum_arithmetic.py:12-19 | The inverse carry after the forward carry restores every qubit. |
| `QuantumArithmetic.SumOnto` | quantum_arithmetic.py:32-37 | The two CNOTs of `sum`, in the order of each branch. Its effect is stated by `SumEffect`. |
| `QuantumArithmetic.Sum` | quantum_arithmetic.py:23-39 | Appends exactly the gates `SumOnto` lists. |
| `AdderCorrectness.SumEffect` | quantum_arithmetic.py:32-37 | Either branch sets q2 to q2 xor q1 xor q0 and changes nothing else. |
| `AdderCorrectness.SumRoundTrip` | quantum_arithmetic.py:32-37 | Any two `sum` cells in a row cancel. |
| `QuantumArithmetic.AdderOnto` | quantum_arithmetic.py:55-75 | The gate list of both branches of `adder`. |
| `QuantumArithmetic.Adder` | quantum_arithmetic.py:41-77 | Appends exactly the gates `AdderOnto` lists, with the loops of the original. |
| `AdderCorrectness.AdderForward` | quantum_arithmetic.py:64-75 | With the carry register clear, the forward branch writes (a + b) mod 2^(n+1) into the (n+1)-qubit register b. Every other qubit is unchanged, so the carries are uncomputed. |
| `AdderCorrectness.AdderInverse` | quantum_arithmetic.py:55-63 | With the carry register clear, the inverse branch writes (b - a) mod 2^(n+1) into b. Every other qubit is unchanged. |
| `AdderCorrectness.AdderRoundTrip` | quantum_arithmetic.py:55-75 | The inverse branch undoes the forward branch on every state. |
| `AdderStructure.AdderInverseIsReverse` | quantum_arithmetic.py:55-75 | The inverse branch emits the forward branch's gate list in reverse order. |
| `AdderCorrectness.AdderWellFormed` | quantum_arithmetic.py:55-75 | Every gate of the adder addresses qubits inside the circuit and has pairwise distinct operands, as Qiskit demands. |
| `QuantumArithmetic.AddModNOnto` | quantum_arithmetic.py:92-112 | The gate list of `addmodN`. Its effect is stated by `AddModNCorrect`. |
| `QuantumArithmetic.AddModN` | quantum_arithmetic.py:79-114 | Appends exactly the gates `AddModNOnto` lists, including both loops over `mod_bin`. |
| `ModularCorrectness.RegisterValue` | quantum_arithmetic.py:101-107 | The value the N register holds after the `mod_bin` loop writes mod_bin[i] into N[i], bounded by 2^len(mod_bin). |
| `ModularCorrectness.AddModNCorrect` | quantum_arithmetic.py:92-112 | Take a, b < M, with N holding M and c and t clear. Then b becomes (a + b) mod M, and a, N, c and t are restored. |
| `ModularCorrectness.AddModNWellFormed` | quantum_arithmetic.py:92-112 | If len(mod_bin) <= n, every gate of `addmodN` is in range and has distinct operands. |
| `QuantumArithmetic.FibModNOnto` | quantum_arithmetic.py:129-133 | `addmodN` followed by the swaps of a[i] and b[i]. |
| `QuantumArithmetic.FibModN` | quantum_arithmetic.py:116-135 | Appends exactly the gates `FibModNOnto` lists. |
| `FibonacciCorrectness.FibModNCorrect` | quantum_arithmetic.py:129-133 | Under the conditions of `AddModNCorrect`, (a, b) becomes ((a + b) mod M, a). Nothing else changes. |
| `FibonacciCorrectness.RepeatCorrect` | quantum_arithmetic.py:152-153 | `power` repetitions advance (a, b) by `power` steps of the pair recurrence modulo M. |
| `QuantumArithmetic.CFibModNBody` | quantum_arithmetic.py:141-158 | Load N from `mod_bin`, repeat `fibmodN` `power` times, then unload N. Its effect is stated by `CFibModNCorrect`. |
| `QuantumArithmetic.CFibModN` | quantum_arithmetic.py:137-165 | Returns the controlled gate over the body, on 4n + 2 target qubits. |
| `FibonacciCorrectness.CFibModNCorrect` | quantum_arithmetic.py:148-158 | Start from a, b < M with N, c and t clear. Then (a, b) advances `power` steps and N, c and t end clear. |
| `FibonacciCorrectness.CFibModNFibonacci` | quantum_arithmetic.py:141-158 | From a = 1 and b = 0, with M the value of the N register, the gate leaves F(power+1) mod M in a and F(power) mod M in b, with N, c and t clear. |
| `FibonacciCorrectness.FibPairsFromOne` | period_fibonacci.py:55-56 | Starting from (F(1), F(0)) = (1, 0), k steps of the pair recurrence modulo m give (F(k+1) mod m, F(k) mod m). |
| `FibonacciCorrectness.CFibModNWellFormed` | quantum_arithmetic.py:141-158 | If len(mod_bin) <= n, every gate of the body is in range on 4n + 2 qubits and has distinct operands. |
| `PeriodFibonacci.PowerOfTwo` | period_fibonacci.py:84-94 | Returns true exactly when n > 0 and n is a power of two. |
| `PeriodFibonacci.CeilLog2` | period_fibonacci.py:102-104 | The least k with N <= 2^k. |
| `PeriodFibonacci.BinaryBounds` | period_fibonacci.py:98 | bin(N) has a leading 1: 2^(len-1) <= N < 2^len. |
| `PeriodFibonacci.QubitCounts` | period_fibonacci.py:101-105 | n is ceil(log2 N), plus 1 for a power of two. It equals len(mod_bin), and the counting register has 2n qubits. |
| `PeriodFibonacci.CUPlacements` | period_fibonacci.py:40-42 | The placements c_U appends, one per counting qubit. |
| `PeriodFibonacci.PhaseCircuit.Append` | period_fibonacci.py:42 | Appends one controlled gate on the given wires and keeps the earlier placements. |
| `PeriodFibonacci.CU` | period_fibonacci.py:31-44 | Appends exactly `CUPlacements` to the circuit object. |
| `PeriodFibonacci.CUWiring` | period_fibonacci.py:40-42 | Placement q is the controlled `c_fibmodN(n, mod_bin, 2^q)`. Its control is counting qubit q, its targets are the 4n + 2 qubits after the counting register, and every wire is in range. |
| `PeriodFibonacci.CUCorrect` | period_fibonacci.py:31-44 | On a basis state whose target is idle, the counting qubits are unchanged. The target's (a, b) advances by as many Fibonacci steps mod M as the value of the counting register. |
| `PeriodFibonacci.ModulusAsWritten` | period_fibonacci.py:97-98 | For N = 6, mod_bin is "110" and the N register holds 3. |
| `PeriodFibonacci.PowerModulusAsWritten` | period_fibonacci.py:98 | For N = 2^k, the N register loaded from bin(N)[2:] holds 1. |
| `PeriodFibonacci.PowerStartNotIdle` | period_fibonacci.py:56 | For N a power of two, the start state a = 1 does not satisfy the precondition of the `c_fibmodN` lemmas. |
| `PeriodFibonacci.LsbFirstValue` | period_fibonacci.py:98 | Written least significant digit first, the string has the same length as bin(N)[2:] and the register holds N itself. |
| `PeriodFibonacci.CFibModNCorrected` | quantum_arithmetic.py:141-158 | With the corrected string, from a = 1 and b = 0, for every N >= 2 (powers of two included), the gate leaves F(power+1) mod N and F(power) mod N, with the ancillas clear. |
| `PeriodRecovery.BinaryValue` | period_fibonacci.py:146 | int(bits, 2), bounded by 2^len(bits). |
| `PeriodRecovery.BinaryRoundTrip` | period_fibonacci.py:98 | int(bin(N)[2:], 2) == N. |
| `Fractions.DyadicRatio` | period_fibonacci.py:146 | s / 2^t as p / 2^e with the same value, e <= t, and p odd when e > 0. |
| `Fractions.DyadicLowest` | period_fibonacci.py:156 | That pair is in lowest terms, as Fraction(phase) is. |
| `Fractions.LimitDenominator` | period_fibonacci.py:156 | The result is in lowest terms with denominator in 1..max_denominator. A fraction that already fits is returned unchanged. |
| `Fractions.LimitDenominatorClosest` | period_fibonacci.py:156 | No fraction p / q with 1 <= q <= max_denominator is strictly closer to N / D than the result. |
| `PeriodRecovery.PhaseFraction` | period_fibonacci.py:146-157 | For a non-zero phase, the reduced fraction has a denominator in 1..2^(t-1). |
| `PeriodRecovery.PhaseFractionClosest` | period_fibonacci.py:156-157 | No p / q with q <= 2^(t-1) is strictly closer to s / 2^t, in exact integer form. |
| `PeriodRecovery.PeriodClosest` | period_fibonacci.py:156-157 | The same closeness, stated on real numbers: abs(f - phase) <= abs(p/q - phase). |
| `PeriodRecovery.Period` | period_fibonacci.py:146-168 | The period of one bitstring: 1 for phase 0, otherwise the denominator above, always in 1..2^(t-1). |
| `PeriodRecovery.ZeroPeriod` | period_fibonacci.py:167-168 | An all-zero bitstring gives period 1. |
| `PeriodRecovery.ExactPhase` | period_fibonacci.py:146-157 | If s / 2^t equals k / r exactly, with gcd(k, r) = 1 and r <= 2^(t-1), the period is r. |
| `PeriodRecovery.Periods` | period_fibonacci.py:140-171 | The loop over the counts builds exactly the dictionary `PeriodsOf` describes. |
| `PeriodRecovery.PeriodKeys` | period_fibonacci.py:140-171 | r is a key of `periods` if and only if some measured bitstring has period r. |
| `PeriodRecovery.PeriodLists` | period_fibonacci.py:171 | periods[r] lists the counts of the bitstrings with period r, in measurement order. |
| `PeriodRecovery.AllPeriodsCounts` | period_fibonacci.py:176 | all_periods[r] is the sum of those counts, and every key r lies in 1..2^(t-1). |
| `PeriodRecovery.AllPeriodsTotal` | period_fibonacci.py:176 | The values of all_periods add up to the total number of shots. |

## Left out

- Amplitudes are not modelled. The model covers classical basis states only, so the following are left out:
  - the Hadamard layer (`superposition`);
  - the inverse QFT;
  - measurement;
  - the simulator run (`transpile`, `AerSimulator`).

  The counts the simulator returns are an input to `Periods`.
- The float phase `int(bits, 2) / 2**num_qubits` and `Fraction(phase)` are replaced by the exact dyadic fraction `DyadicRatio`. This loses nothing for t <= 53:
  - s / 2^t with s < 2^t has a 53-bit significand, so the float division is exact;
  - `Fraction(float)` returns the float's exact value in lowest terms.

  Larger counting registers, where the division rounds, are not modelled.
- `int(np.ceil(np.log2(N)))` is replaced by the integer `CeilLog2`.
- QubitCounts: requires N >= 1. The script's N <= 0 path fails rather than computing sizes:
  - `np.log2(0)` is -inf, so `int` raises OverflowError;
  - a negative N gives nan, so `int` raises ValueError.
- A gate whose operands fall outside the circuit or repeat is a no-op in `Apply`, whereas Qiskit raises. The builders never emit such a gate when len(mod_bin) <= n. `AdderWellFormed`, `AddModNWellFormed` and `CFibModNWellFormed` prove this. Longer mod_bin strings, which Qiskit would reject, are not modelled as errors.
- `to_gate().control()` is modelled by the `ControlledGate` value: a gate body plus a width. Running it with its control qubit set runs the body on the target qubits. Qiskit's gate synthesis and labels are not modelled.
- `plot_histogram`, `plt`, `print` and the `phases` dictionary, which only feeds a plot, are left out.
- CFibModNFibonacci: it requires the `Idle` state, with a and b below the register value M. For N a power of two, mod_bin as the script writes it makes M = 1, so the program's own start state a = 1 is excluded (`PowerStartNotIdle`). See Findings.
- CUCorrect: it has the same `Idle` precondition, so for a power of two it does not describe the script's circuit.
- The drawing of the circuit and the `barrier` calls have no effect on states and are left out.

## Findings

| source | as written | input that shows it | evidently intended | confidence | as-written member | corrected member |
|---|---|---|---|---|---|---|
| period_fibonacci.py:98 with quantum_arithmetic.py:148-150 | `mod_bin = bin(N)[2:]` is most significant digit first, but `c_fibmodN` writes mod_bin[i] into N[i] and N[0] is the least significant qubit, so the register holds N bit-reversed | N = 6: mod_bin = "110", the register holds 3, and the circuit computes Fibonacci numbers modulo 3 | the register holds N (mod_bin written least significant digit first) | high (proved; not executed) | `PeriodFibonacci.ModulusAsWritten` | `PeriodFibonacci.LsbFirstValue` |
| period_fibonacci.py:56 with period_fibonacci.py:98 | for N = 2^k, mod_bin is a 1 followed by k zeros, so the register holds 1 and the start state a = 1 is not below the modulus | N = 4: mod_bin = "100", the register holds 1, and a = 1 is not reduced modulo 1 | modular Fibonacci steps modulo N from (1, 0) | high (proved; not executed) | `PeriodFibonacci.PowerStartNotIdle` | `PeriodFibonacci.CFibModNCorrected` |

The builders take `mod_bin` as a parameter. The correctness lemmas are stated
for any string, in terms of the value M the register receives. The corrected
row instantiates them with `LsbFirst(N)`, the digits of N least significant
first. `LsbFirstValue` shows that this string loads N itself, so
`CFibModNCorrected` yields Fibonacci numbers modulo N.
