/** The classical side of period_fibonacci.py that builds the circuit: the
    power-of-two test, the choice of register sizes, the string mod_bin handed
    to c_fibmodN, and the wiring of the controlled steps onto the counting
    qubits (c_U), with the meaning of the wired circuit on basis states.
 */
module PeriodFibonacci {
  import opened Bits
  import opened Circuits
  import opened QuantumArithmetic
  import opened AdderCorrectness
  import opened ModularCorrectness
  import opened FibonacciCorrectness

  // ---------------------------------------------------------------- power_2

  ghost predicate IsPowerOfTwo(n: int)
  {
    exists k: nat :: Pow2(k) == n
  }

  lemma {:induction false} HalfPowerOfTwo(m: int)
    requires m > 0 && m % 2 == 0
    ensures IsPowerOfTwo(m) <==> IsPowerOfTwo(m / 2)
  {
    if IsPowerOfTwo(m) {
      var k: nat :| Pow2(k) == m;
      assert k != 0;
      assert Pow2(k - 1) == m / 2;
    }
    if IsPowerOfTwo(m / 2) {
      var k: nat :| Pow2(k) == m / 2;
      assert Pow2(k + 1) == m;
    }
  }

  lemma {:induction false} OddPowerOfTwo(m: int)
    requires m > 0 && m % 2 == 1
    ensures IsPowerOfTwo(m) <==> m == 1
  {
    if IsPowerOfTwo(m) {
      var k: nat :| Pow2(k) == m;
    }
    if m == 1 {
      assert Pow2(0) == 1;
    }
  }

  /** power_2: false for n <= 0, otherwise strip factors of 2 and test for 1. */
  method PowerOfTwo(n: int) returns (r: bool)
    ensures r <==> n > 0 && IsPowerOfTwo(n)
  {
    if n <= 0 {
      return false;
    }
    var m := n;
    while m % 2 == 0
      invariant m > 0 && (IsPowerOfTwo(m) <==> IsPowerOfTwo(n))
      decreases m
    {
      HalfPowerOfTwo(m);
      m := m / 2;
    }
    OddPowerOfTwo(m);
    return m == 1;
  }

  // ---------------------------------------------------------------- register sizes

  /** ceil(log2 N), computed on integers: the least k with N <= 2^k. */
  function CeilLog2(N: nat): (k: nat)
    requires N >= 1
    ensures N <= Pow2(k) && (k == 0 || Pow2(k - 1) < N)
  {
    if N == 1 then 0 else CeilLog2((N + 1) / 2) + 1
  }

  /** bin(N)[2:]: the binary digits of N, most significant first. */
  function Binary(N: nat): string
  {
    if N < 2 then [if N == 1 then '1' else '0']
    else Binary(N / 2) + [if N % 2 == 1 then '1' else '0']
  }

  /** N has exactly |Binary(N)| binary digits. */
  lemma {:induction false} BinaryBounds(N: nat)
    requires N >= 1
    ensures |Binary(N)| >= 1 && Pow2(|Binary(N)| - 1) <= N < Pow2(|Binary(N)|)
  {
    if N >= 2 {
      BinaryBounds(N / 2);
    }
  }

  /** A number lies between consecutive powers of two for one exponent only. */
  lemma {:induction false} ExponentUnique(N: nat, i: nat, j: nat)
    requires 1 <= i && 1 <= j
    requires Pow2(i - 1) <= N < Pow2(i) && Pow2(j - 1) <= N < Pow2(j)
    ensures i == j
  {
    if i < j {
      Pow2Monotone(i, j - 1);
    } else if j < i {
      Pow2Monotone(j, i - 1);
    }
  }

  /** The register sizes the script chooses for N: n = ceil(log2 N), plus one
      when N is a power of two, and twice as many counting qubits. n is the
      length of mod_bin. */
  method QubitCounts(N: nat) returns (n: nat, numQubits: nat)
    requires N >= 1
    ensures n == |Binary(N)| && n >= 1 && numQubits == 2 * n
  {
    var isPower := PowerOfTwo(N);
    var c := CeilLog2(N);
    BinaryBounds(N);
    if isPower {
      n := c + 1;
      var k: nat :| Pow2(k) == N;
      if c < k {
        Pow2Monotone(c, k - 1);
      } else if k < c {
        Pow2Monotone(k, c - 1);
      }
      ExponentUnique(N, n, |Binary(N)|);
    } else {
      n := c;
      ExponentUnique(N, n, |Binary(N)|);
    }
    numQubits := 2 * n;
  }

  // ---------------------------------------------------------------- the modulus register

  function ReverseString(s: string): (r: string)
    ensures |r| == |s|
  {
    if |s| == 0 then [] else [s[|s| - 1]] + ReverseString(s[..|s| - 1])
  }

  /** c_fibmodN writes mod_bin[i] into N[i] and N[0] is the low qubit, so the
      register holds bin(N)[2:] read least significant digit first. For N = 6
      it holds 3. */
  lemma {:induction false} ModulusAsWritten()
    ensures Binary(6) == "110" && RegisterValue(Binary(6)) == 3
  {
    assert Binary(3) == "11";
    assert "110"[1..] == "10" && "10"[1..] == "0" && "0"[1..] == "";
  }

  /** The digits of N least significant first: what mod_bin must be for the register to hold N. */
  function LsbFirst(N: nat): string
  {
    ReverseString(Binary(N))
  }

  /** With the digits reversed the register holds N itself, in as many qubits as mod_bin has. */
  lemma {:induction false} LsbFirstValue(N: nat)
    ensures RegisterValue(LsbFirst(N)) == N && |LsbFirst(N)| == |Binary(N)|
  {
    if N >= 2 {
      LsbFirstValue(N / 2);
      var digit := if N % 2 == 1 then '1' else '0';
      var high := Binary(N / 2);
      assert (high + [digit])[..|high|] == high;
      assert LsbFirst(N) == [digit] + LsbFirst(N / 2);
      assert LsbFirst(N)[1..] == LsbFirst(N / 2);
    }
  }

  /** A '0' past the last digit adds nothing to the register. */
  lemma {:induction false} HighZero(x: string)
    ensures RegisterValue(x + ['0']) == RegisterValue(x)
  {
    if |x| > 0 {
      assert (x + ['0'])[1..] == x[1..] + ['0'];
      HighZero(x[1..]);
    } else {
      assert (x + ['0'])[1..] == [];
    }
  }

  /** For N = 2^k, bin(N)[2:] is a '1' followed by k '0's, so the register
      loaded from it holds 1, whatever k. */
  lemma {:induction false} PowerModulusAsWritten(k: nat)
    ensures RegisterValue(Binary(Pow2(k))) == 1
  {
    if k > 0 {
      PowerModulusAsWritten(k - 1);
      assert Pow2(k) / 2 == Pow2(k - 1) && Pow2(k) % 2 == 0 && Pow2(k) >= 2;
      HighZero(Binary(Pow2(k - 1)));
    }
  }

  /** Hence for N a power of two the start state a = 1 is not below the
      modulus the register holds, and c_fibmodN's correctness does not apply. */
  lemma {:induction false} PowerStartNotIdle(k: nat, n: nat, s: seq<bool>)
    requires n >= 1 && |s| == 4 * n + 2 && Val(s, 0, n) == 1
    ensures !Idle(s, StdLayout(n), Binary(Pow2(k)))
  {
    PowerModulusAsWritten(k);
  }

  /** With mod_bin written least significant digit first the register holds N
      itself, so for every N >= 2, powers of two included, the start state
      a = 1, b = 0 is one c_fibmodN works on, and it leaves F(power + 1) mod N
      and F(power) mod N in a and b. */
  lemma {:induction false} CFibModNCorrected(n: nat, N: nat, power: nat, s: seq<bool>)
    requires N >= 2 && |Binary(N)| <= n && |s| == 4 * n + 2
    requires Val(s, 0, n) == 1 && Val(s, n, n + 1) == 0
    requires Zero(s, 2 * n + 1, n) && Zero(s, 3 * n + 1, n) && !s[4 * n + 1]
    ensures var r := Run(CFibModNBody(n, LsbFirst(N), power), s);
      Val(r, 0, n) == Fib(power + 1) % N && Val(r, n, n + 1) == Fib(power) % N &&
      Zero(r, 2 * n + 1, n) && Zero(r, 3 * n + 1, n) && !r[4 * n + 1]
  {
    LsbFirstValue(N);
    StdLayoutValid(n);
    assert Idle(s, StdLayout(n), LsbFirst(N));
    CFibModNFibonacci(n, LsbFirst(N), power, s);
  }

  // ---------------------------------------------------------------- c_U

  /** An instruction of the phase-estimation circuit: a controlled gate and the
      qubits it is appended to, the control first. */
  datatype Placement = Placement(gate: ControlledGate, wires: seq<nat>)

  /** The phase-estimation circuit as the list of controlled gates appended to it. */
  class PhaseCircuit {
    var placements: seq<Placement>

    constructor ()
      ensures placements == []
    {
      placements := [];
    }

    method Append(gate: ControlledGate, wires: seq<nat>)
      modifies this
      ensures placements == old(placements) + [Placement(gate, wires)]
    {
      placements := placements + [Placement(gate, wires)];
    }
  }

  /** [l + num_qubits for l in range(4n + 2)]: the target register. */
  function TargetWires(numQubits: nat, n: nat): seq<nat>
  {
    seq(4 * n + 2, l => l + numQubits)
  }

  /** The wires of p are its control and then a block of gate.width consecutive
      qubits, all inside a circuit of `width` qubits, the control not in the block. */
  predicate Fits(p: Placement, width: nat)
  {
    p.gate.width >= 1 && |p.wires| == p.gate.width + 1 &&
    p.wires[1..] == seq(p.gate.width, l => l + p.wires[1]) &&
    p.wires[1] + p.gate.width <= width && p.wires[0] < width &&
    !(p.wires[1] <= p.wires[0] < p.wires[1] + p.gate.width)
  }

  /** The first k instructions c_U appends. */
  function CUPlacements(k: nat, numQubits: nat, modBin: string, n: nat): (ps: seq<Placement>)
    requires n >= 1
    ensures |ps| == k
  {
    seq(k, q requires 0 <= q < k => Placement(ControlledGate(CFibModNBody(n, modBin, Pow2(q)), 4 * n + 2), [q] + TargetWires(numQubits, n)))
  }

  lemma {:induction false} CUPlacementsNext(k: nat, numQubits: nat, modBin: string, n: nat)
    requires n >= 1
    ensures CUPlacements(k + 1, numQubits, modBin, n) == CUPlacements(k, numQubits, modBin, n) +
      [Placement(ControlledGate(CFibModNBody(n, modBin, Pow2(k)), 4 * n + 2), [k] + TargetWires(numQubits, n))]
  {
  }

  /** c_U appends, for each counting qubit q, the controlled step of power 2^q
      on [q] followed by the 4n + 2 target qubits. */
  method CU(circuit: PhaseCircuit, numQubits: nat, modBin: string, n: nat)
    requires n >= 1
    modifies circuit
    ensures circuit.placements == old(circuit.placements) + CUPlacements(numQubits, numQubits, modBin, n)
  {
    for qubit := 0 to numQubits
      invariant circuit.placements == old(circuit.placements) + CUPlacements(qubit, numQubits, modBin, n)
    {
      var controlled := CFibModN(n, modBin, Pow2(qubit));
      circuit.Append(controlled, [qubit] + TargetWires(numQubits, n));
      CUPlacementsNext(qubit, numQubits, modBin, n);
    }
  }

  predicate AllFit(ps: seq<Placement>, width: nat)
  {
    forall i :: 0 <= i < |ps| ==> Fits(ps[i], width)
  }

  /** Instruction q of c_U has control q, the power 2^q, and its target block
      at qubits num_qubits .. num_qubits + 4n + 1, which fits beside the counting qubits. */
  lemma {:induction false} CUWiring(k: nat, numQubits: nat, modBin: string, n: nat)
    requires n >= 1 && k <= numQubits
    ensures var ps := CUPlacements(k, numQubits, modBin, n);
      AllFit(ps, numQubits + 4 * n + 2) &&
      forall q :: 0 <= q < k ==>
        (ps[q].wires[0] == q && ps[q].wires[1] == numQubits &&
         ps[q].gate == ControlledGate(CFibModNBody(n, modBin, Pow2(q)), 4 * n + 2))
  {
    var ps := CUPlacements(k, numQubits, modBin, n);
    forall q | 0 <= q < k
      ensures Fits(ps[q], numQubits + 4 * n + 2)
    {
      assert ps[q].wires[1..] == TargetWires(numQubits, n);
    }
  }

  // ---------------------------------------------------------------- the wired circuit on basis states

  /** A controlled gate on a basis state: when its control is 1 the gate's
      circuit runs on its block of qubits, otherwise nothing changes. */
  function RunPlacement(p: Placement, s: seq<bool>): (r: seq<bool>)
    requires Fits(p, |s|)
    ensures |r| == |s|
  {
    var off, w := p.wires[1], p.gate.width;
    if s[p.wires[0]] then s[..off] + Run(p.gate.body, s[off..off + w]) + s[off + w..] else s
  }

  function RunPlacements(ps: seq<Placement>, s: seq<bool>): (r: seq<bool>)
    requires AllFit(ps, |s|)
    ensures |r| == |s|
  {
    if |ps| == 0 then s else RunPlacement(ps[|ps| - 1], RunPlacements(ps[..|ps| - 1], s))
  }

  /** A gate whose block is the tail of the state from qubit T on keeps the qubits
      before T and runs its circuit on the tail when the control is 1. */
  lemma {:induction false} PlacementOnTail(p: Placement, s: seq<bool>, T: nat)
    requires Fits(p, |s|) && p.wires[1] == T && T + p.gate.width == |s|
    ensures RunPlacement(p, s) == s[..T] + (if s[p.wires[0]] then Run(p.gate.body, s[T..]) else s[T..])
  {
    if s[p.wires[0]] {
      assert s[T..T + p.gate.width] == s[T..];
      assert s[T + p.gate.width..] == [];
    } else {
      assert s == s[..T] + s[T..];
    }
  }

  /** The target state u with the low bits of x written into a and those of y into b. */
  function Advanced(u: seq<bool>, L: Layout, x: nat, y: nat): (r: seq<bool>)
    requires L.a + L.n <= |u| && L.b + L.n + 1 <= |u|
    ensures |r| == |u|
  {
    seq(|u|, q requires 0 <= q < |u| =>
      if L.a <= q < L.a + L.n then BitsOf(x, L.n)[q - L.a]
      else if L.b <= q < L.b + L.n + 1 then BitsOf(y, L.n + 1)[q - L.b]
      else u[q])
  }

  /** Advancing writes x and y and keeps the rest. */
  lemma {:induction false} AdvancedStepped(u: seq<bool>, L: Layout, x: nat, y: nat)
    requires L.a + L.n <= |u| && L.b + L.n + 1 <= |u| && Disjoint(L.a, L.n, L.b, L.n + 1)
    requires x < Pow2(L.n) && y < Pow2(L.n + 1)
    ensures Stepped(u, Advanced(u, L, x, y), L, x, y)
  {
    var r := Advanced(u, L, x, y);
    BitsHeld(r, L.a, L.n, x);
    BitsHeld(r, L.b, L.n + 1, y);
  }

  /** A register whose qubits are the bits of v < 2^len holds v. */
  lemma {:induction false} BitsHeld(r: seq<bool>, off: nat, len: nat, v: nat)
    requires off + len <= |r| && v < Pow2(len)
    requires forall q :: off <= q < off + len ==> r[q] == BitsOf(v, len)[q - off]
    ensures Val(r, off, len) == v
  {
    assert r[off..off + len] == BitsOf(v, len)[0..len];
    ValFrame(r, BitsOf(v, len), off, 0, len);
    ValBitsOf(v, len);
    LowSmall(v, len);
  }

  /** A step to (x, y) determines the state: it is u advanced to (x, y). */
  lemma {:induction false} SteppedAdvanced(u: seq<bool>, r: seq<bool>, L: Layout, x: nat, y: nat)
    requires L.a + L.n <= |u| && L.b + L.n + 1 <= |u| && Disjoint(L.a, L.n, L.b, L.n + 1)
    requires Stepped(u, r, L, x, y)
    ensures r == Advanced(u, L, x, y)
  {
    var w := Advanced(u, L, x, y);
    AdvancedStepped(u, L, x, y);
    ValInjective(r, w, L.a, L.n);
    ValInjective(r, w, L.b, L.n + 1);
    forall q | 0 <= q < |r|
      ensures r[q] == w[q]
    {
      if L.a <= q < L.a + L.n {
        assert r[q] == r[L.a..L.a + L.n][q - L.a];
        assert w[q] == w[L.a..L.a + L.n][q - L.a];
      } else if L.b <= q < L.b + L.n + 1 {
        assert r[q] == r[L.b..L.b + L.n + 1][q - L.b];
        assert w[q] == w[L.b..L.b + L.n + 1][q - L.b];
      }
    }
  }

  /** Advancing an idle target to values below M leaves it idle, holding those values. */
  lemma {:induction false} AdvancedIdle(u: seq<bool>, n: nat, modBin: string, x: nat, y: nat)
    requires n >= 1 && |u| == 4 * n + 2 && Idle(u, StdLayout(n), modBin)
    requires x < RegisterValue(modBin) && y < RegisterValue(modBin)
    ensures var L := StdLayout(n);
      Idle(Advanced(u, L, x, y), L, modBin) && Val(Advanced(u, L, x, y), L.a, L.n) == x &&
      Val(Advanced(u, L, x, y), L.b, L.n + 1) == y
  {
    var L := StdLayout(n);
    Pow2Monotone(|modBin|, L.n);
    Pow2Monotone(L.n, L.n + 1);
    AdvancedStepped(u, L, x, y);
    var w := Advanced(u, L, x, y);
    assert Zero(w, L.modulus, L.n) && Zero(w, L.c, L.n) && !w[L.t];
  }

  /** Advancing twice is advancing to the later values. */
  lemma {:induction false} AdvancedTwice(u: seq<bool>, L: Layout, x1: nat, y1: nat, x2: nat, y2: nat)
    requires L.a + L.n <= |u| && L.b + L.n + 1 <= |u|
    ensures Advanced(Advanced(u, L, x1, y1), L, x2, y2) == Advanced(u, L, x2, y2)
  {
  }

  /** The circuit of c_fibmodN on an idle target is exactly the advance of
      (a, b) to FibPairs(a, b, M, power). */
  lemma {:induction false} GateOnIdle(n: nat, modBin: string, power: nat, u: seq<bool>)
    requires n >= 1 && |u| == 4 * n + 2 && Idle(u, StdLayout(n), modBin)
    ensures var L := StdLayout(n);
      var p := FibPairs(Val(u, L.a, L.n), Val(u, L.b, L.n + 1), RegisterValue(modBin), power);
      Run(CFibModNBody(n, modBin, power), u) == Advanced(u, L, p.0, p.1)
  {
    var L := StdLayout(n);
    var p := FibPairs(Val(u, L.a, L.n), Val(u, L.b, L.n + 1), RegisterValue(modBin), power);
    CFibModNCorrect(n, modBin, power, u);
    SteppedAdvanced(u, Run(CFibModNBody(n, modBin, power), u), L, p.0, p.1);
  }

  /** The same on a target already advanced to the pair p. */
  lemma {:induction false} GateOnAdvanced(u: seq<bool>, n: nat, modBin: string, power: nat, p: (nat, nat))
    requires n >= 1 && |u| == 4 * n + 2 && Idle(u, StdLayout(n), modBin)
    requires p.0 < RegisterValue(modBin) && p.1 < RegisterValue(modBin)
    ensures var L, p' := StdLayout(n), FibPairs(p.0, p.1, RegisterValue(modBin), power);
      Run(CFibModNBody(n, modBin, power), Advanced(u, L, p.0, p.1)) == Advanced(u, L, p'.0, p'.1)
  {
    var L, p' := StdLayout(n), FibPairs(p.0, p.1, RegisterValue(modBin), power);
    AdvancedIdle(u, n, modBin, p.0, p.1);
    GateOnIdle(n, modBin, power, Advanced(u, L, p.0, p.1));
    AdvancedTwice(u, L, p.0, p.1, p'.0, p'.1);
  }

  /** Counting qubit q adds 2^q steps when it is 1. */
  lemma {:induction false} PairsAfterControl(x: nat, y: nat, m: nat, s: seq<bool>, q: nat, k: nat)
    requires m >= 1 && k == q + 1 && k <= |s|
    ensures var p := FibPairs(x, y, m, Val(s, 0, q));
      FibPairs(x, y, m, Val(s, 0, k)) == if s[q] then FibPairs(p.0, p.1, m, Pow2(q)) else p
  {
    ValTop(s, 0, q);
    if s[q] {
      FibPairsAdd(x, y, m, Val(s, 0, q), Pow2(q));
    }
  }

  lemma {:induction false} SplitAt(r: seq<bool>, x: seq<bool>, y: seq<bool>)
    requires r == x + y
    ensures r[..|x|] == x && r[|x|..] == y
  {
  }

  /** Advancing a target to the values it already holds leaves it as it is. */
  lemma {:induction false} AdvancedSelf(u: seq<bool>, L: Layout)
    requires L.a + L.n <= |u| && L.b + L.n + 1 <= |u| && Disjoint(L.a, L.n, L.b, L.n + 1)
    ensures Advanced(u, L, Val(u, L.a, L.n), Val(u, L.b, L.n + 1)) == u
  {
    SteppedRefl(u, L);
    SteppedAdvanced(u, u, L, Val(u, L.a, L.n), Val(u, L.b, L.n + 1));
  }

  /** The state the first k gates of c_U are to produce from s: counting
      qubits kept, the target's (a, b) advanced by FibPairs as many steps as
      the value of counting qubits 0 .. k - 1. */
  ghost function CUTarget(s: seq<bool>, numQubits: nat, modBin: string, n: nat, k: nat): seq<bool>
    requires k <= numQubits && |s| == numQubits + 4 * n + 2 && RegisterValue(modBin) >= 1
  {
    var u, L := s[numQubits..], StdLayout(n);
    var p := FibPairs(Val(u, L.a, L.n), Val(u, L.b, L.n + 1), RegisterValue(modBin), Val(s, 0, k));
    s[..numQubits] + Advanced(u, L, p.0, p.1)
  }

  lemma {:induction false} RunPlacementsLast(ps: seq<Placement>, s: seq<bool>)
    requires AllFit(ps, |s|) && |ps| >= 1
    ensures AllFit(ps[..|ps| - 1], |s|)
    ensures RunPlacements(ps, s) == RunPlacement(ps[|ps| - 1], RunPlacements(ps[..|ps| - 1], s))
  {
  }

  /** Gate q of c_U, placed with control q and its block from numQubits on,
      takes s's counting qubits with the target advanced to the pair for
      qubits 0 .. q - 1 to the same with the pair for qubits 0 .. q (k is q + 1). */
  lemma {:induction false} CUGateStep(s: seq<bool>, v: seq<bool>, g: Placement, numQubits: nat, modBin: string, n: nat, q: nat, k: nat)
    requires n >= 1 && k == q + 1 && k <= numQubits && |s| == numQubits + 4 * n + 2
    requires Idle(s[numQubits..], StdLayout(n), modBin)
    requires Fits(g, |s|) && g.wires[0] == q && g.wires[1] == numQubits
    requires g.gate == ControlledGate(CFibModNBody(n, modBin, Pow2(q)), 4 * n + 2)
    requires var u, L := s[numQubits..], StdLayout(n);
      var p := FibPairs(Val(u, L.a, L.n), Val(u, L.b, L.n + 1), RegisterValue(modBin), Val(s, 0, q));
      v == s[..numQubits] + Advanced(u, L, p.0, p.1)
    ensures var u, L := s[numQubits..], StdLayout(n);
      var p := FibPairs(Val(u, L.a, L.n), Val(u, L.b, L.n + 1), RegisterValue(modBin), Val(s, 0, k));
      RunPlacement(g, v) == s[..numQubits] + Advanced(u, L, p.0, p.1)
  {
    var u, L, m := s[numQubits..], StdLayout(n), RegisterValue(modBin);
    var x, y := Val(u, L.a, L.n), Val(u, L.b, L.n + 1);
    var p := FibPairs(x, y, m, Val(s, 0, q));
    SplitAt(v, s[..numQubits], Advanced(u, L, p.0, p.1));
    PlacementOnTail(g, v, numQubits);
    assert v[q] == s[q] by {
      assert v[q] == v[..numQubits][q];
    }
    PairsAfterControl(x, y, m, s, q, k);
    if s[q] {
      GateOnAdvanced(u, n, modBin, Pow2(q), p);
    }
  }

  /** Gate q of c_U takes the target state after q gates to the one after k = q + 1. */
  lemma {:induction false} CUAdvance(s: seq<bool>, numQubits: nat, modBin: string, n: nat, q: nat, k: nat)
    requires n >= 1 && k == q + 1 && k <= numQubits && |s| == numQubits + 4 * n + 2
    requires Idle(s[numQubits..], StdLayout(n), modBin)
    ensures var g := CUPlacements(k, numQubits, modBin, n)[q];
      Fits(g, |s|) && RunPlacement(g, CUTarget(s, numQubits, modBin, n, q)) == CUTarget(s, numQubits, modBin, n, k)
  {
    var g := CUPlacements(k, numQubits, modBin, n)[q];
    assert Fits(g, |s|) && g.wires[0] == q && g.wires[1] == numQubits &&
      g.gate == ControlledGate(CFibModNBody(n, modBin, Pow2(q)), 4 * n + 2) by {
      CUWiring(k, numQubits, modBin, n);
    }
    CUGateStep(s, CUTarget(s, numQubits, modBin, n, q), g, numQubits, modBin, n, q, k);
  }

  /** The first k gates of c_U are the first k - 1 followed by gate k - 1. */
  lemma {:induction false} CUSplit(k: nat, numQubits: nat, modBin: string, n: nat, s: seq<bool>)
    requires n >= 1 && k >= 1 && AllFit(CUPlacements(k, numQubits, modBin, n), |s|)
    ensures AllFit(CUPlacements(k - 1, numQubits, modBin, n), |s|)
    ensures RunPlacements(CUPlacements(k, numQubits, modBin, n), s) ==
      RunPlacement(CUPlacements(k, numQubits, modBin, n)[k - 1], RunPlacements(CUPlacements(k - 1, numQubits, modBin, n), s))
  {
    var ps := CUPlacements(k, numQubits, modBin, n);
    RunPlacementsLast(ps, s);
    assert ps[..k - 1] == CUPlacements(k - 1, numQubits, modBin, n);
  }

  /** No gate of c_U leaves the state as it is. */
  lemma {:induction false} CUStart(numQubits: nat, modBin: string, n: nat, s: seq<bool>)
    requires n >= 1 && |s| == numQubits + 4 * n + 2
    requires Idle(s[numQubits..], StdLayout(n), modBin)
    ensures RunPlacements(CUPlacements(0, numQubits, modBin, n), s) == CUTarget(s, numQubits, modBin, n, 0)
  {
    AdvancedSelf(s[numQubits..], StdLayout(n));
    assert s == s[..numQubits] + s[numQubits..];
  }

  /** The first k gates of c_U on a basis state whose target is idle. */
  lemma {:induction false} CUCorrect(k: nat, numQubits: nat, modBin: string, n: nat, s: seq<bool>)
    requires n >= 1 && k <= numQubits && |s| == numQubits + 4 * n + 2
    requires Idle(s[numQubits..], StdLayout(n), modBin)
    ensures AllFit(CUPlacements(k, numQubits, modBin, n), |s|)
    ensures RunPlacements(CUPlacements(k, numQubits, modBin, n), s) == CUTarget(s, numQubits, modBin, n, k)
  {
    assert AllFit(CUPlacements(k, numQubits, modBin, n), |s|) by {
      CUWiring(k, numQubits, modBin, n);
    }
    if k == 0 {
      CUStart(numQubits, modBin, n, s);
    } else {
      CUSplit(k, numQubits, modBin, n, s);
      CUCorrect(k - 1, numQubits, modBin, n, s);
      CUAdvance(s, numQubits, modBin, n, k - 1, k);
    }
  }
}
