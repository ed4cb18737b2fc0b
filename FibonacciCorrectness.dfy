/** What fibmodN, its repetition inside c_fibmodN and the controlled gate
    c_fibmodN returns compute on classical basis states.

    With a holding x and b holding y (both below the modulus M held by the
    N register), one fibmodN step leaves (x + y) mod M in a and x in b: the
    pair (F(k), F(k - 1)) becomes (F(k + 1), F(k)) modulo M.
 */
module FibonacciCorrectness {
  import opened Bits
  import opened Circuits
  import opened QuantumArithmetic
  import opened AdderCorrectness
  import opened ModularCorrectness

  // ---------------------------------------------------------------- the classical reference

  /** The Fibonacci numbers: Fib(0) = 0, Fib(1) = 1. */
  function Fib(k: nat): nat
  {
    if k == 0 then 0 else if k == 1 then 1 else Fib(k - 1) + Fib(k - 2)
  }

  /** The pair (a, b) after k steps (a, b) -> ((a + b) mod m, a). */
  function FibPairs(x: nat, y: nat, m: nat, k: nat): (p: (nat, nat))
    requires m >= 1
    ensures x < m && y < m ==> p.0 < m && p.1 < m
  {
    if k == 0 then (x, y)
    else
      var q := FibPairs(x, y, m, k - 1);
      ((q.0 + q.1) % m, q.0)
  }

  lemma {:induction false} ModAdd(x: nat, y: nat, m: nat)
    requires m >= 1
    ensures (x % m + y % m) % m == (x + y) % m
  {
    var q1, r1 := x / m, x % m;
    var q2, r2 := y / m, y % m;
    var q3, r3 := (r1 + r2) / m, (r1 + r2) % m;
    assert x + y == (q1 + q2 + q3) * m + r3;
    ModUnique(x + y, m, q1 + q2 + q3, r3);
  }

  /** Starting from a = 1 and b = 0, k steps give (F(k + 1), F(k)) modulo m. */
  lemma {:induction false} FibPairsFromOne(m: nat, k: nat)
    requires m >= 2
    ensures FibPairs(1, 0, m, k) == (Fib(k + 1) % m, Fib(k) % m)
  {
    if k == 0 {
      ModUnique(1, m, 0, 1);
      ModUnique(0, m, 0, 0);
    } else {
      FibPairsFromOne(m, k - 1);
      ModAdd(Fib(k), Fib(k - 1), m);
      ModUnique(Fib(k) % m, m, 0, Fib(k) % m);
    }
  }

  /** j steps and then k more are j + k steps. */
  lemma {:induction false} FibPairsAdd(x: nat, y: nat, m: nat, j: nat, k: nat)
    requires m >= 1
    ensures var p := FibPairs(x, y, m, j);
      FibPairs(x, y, m, j + k) == FibPairs(p.0, p.1, m, k)
  {
    if k > 0 {
      FibPairsAdd(x, y, m, j, k - 1);
    }
  }

  // ---------------------------------------------------------------- the swaps

  /** Qubit q once the first k qubits of a and of b have been exchanged. */
  function ExchangedBit(u: seq<bool>, L: Layout, k: nat, q: nat): bool
    requires k <= L.n && L.a + L.n <= |u| && L.b + L.n <= |u| && q < |u|
  {
    if L.a <= q < L.a + k then u[q - L.a + L.b] else if L.b <= q < L.b + k then u[q - L.b + L.a] else u[q]
  }

  /** The state with the first k qubits of a and of b exchanged. */
  function Exchanged(u: seq<bool>, L: Layout, k: nat): (r: seq<bool>)
    requires k <= L.n && L.a + L.n <= |u| && L.b + L.n <= |u|
    ensures |r| == |u|
    ensures forall q :: 0 <= q < |u| ==> r[q] == ExchangedBit(u, L, k, q)
  {
    seq(|u|, q requires 0 <= q < |u| => ExchangedBit(u, L, k, q))
  }

  /** One more swap(a[k - 1], b[k - 1]) extends the exchange to the first k qubits. */
  lemma {:induction false} SwapStep(u: seq<bool>, L: Layout, k: nat)
    requires 0 < k <= L.n && L.a + L.n <= |u| && L.b + L.n <= |u| && Disjoint(L.a, L.n, L.b, L.n)
    ensures Apply(Swap(L.a + k - 1, L.b + k - 1), Exchanged(u, L, k - 1)) == Exchanged(u, L, k)
  {
    var v, r := Exchanged(u, L, k - 1), Exchanged(u, L, k);
    var p, p' := L.a + k - 1, L.b + k - 1;
    var w := v[p := v[p']][p' := v[p]];
    forall q | 0 <= q < |u|
      ensures w[q] == r[q]
    {
      assert v[q] == ExchangedBit(u, L, k - 1, q);
      assert v[p'] == ExchangedBit(u, L, k - 1, p');
      assert v[p] == ExchangedBit(u, L, k - 1, p);
    }
  }

  /** swap(a[i], b[i]) for every i < k exchanges the first k qubits of a and b. */
  lemma {:induction false} SwapsEffect(circuit: GateList, s: seq<bool>, L: Layout, k: nat)
    requires k <= L.n && L.a + L.n <= |s| && L.b + L.n <= |s| && Disjoint(L.a, L.n, L.b, L.n)
    ensures Run(SwapsOnto(circuit, L, k), s) == Exchanged(Run(circuit, s), L, k)
  {
    if k == 0 {
      ExchangedNone(Run(circuit, s), L);
    } else {
      SwapsEffect(circuit, s, L, k - 1);
      SwapStep(Run(circuit, s), L, k);
    }
  }

  /** Exchanging no qubits leaves the state as it is. */
  lemma {:induction false} ExchangedNone(u: seq<bool>, L: Layout)
    requires L.a + L.n <= |u| && L.b + L.n <= |u|
    ensures Exchanged(u, L, 0) == u
  {
    assert Exchanged(u, L, 0) == u;
  }

  // ---------------------------------------------------------------- one step on states

  /** r is u with x in a and y in b, every other qubit unchanged. */
  ghost predicate Stepped(u: seq<bool>, r: seq<bool>, L: Layout, x: nat, y: nat)
  {
    L.a + L.n <= |u| && L.b + L.n + 1 <= |u| && |r| == |u| &&
    (forall q :: 0 <= q < |u| && !(L.a <= q < L.a + L.n) && !(L.b <= q < L.b + L.n + 1) ==> r[q] == u[q]) &&
    Val(r, L.a, L.n) == x && Val(r, L.b, L.n + 1) == y
  }

  /** A step to values below the modulus leaves a state addmodN can work on. */
  lemma {:induction false} SteppedReady(u: seq<bool>, r: seq<bool>, L: Layout, modBin: string, x: nat, y: nat)
    requires Ready(u, L, modBin) && Stepped(u, r, L, x, y) && x < RegisterValue(modBin) && y < RegisterValue(modBin)
    ensures Ready(r, L, modBin)
  {
    forall i | 0 <= i < L.n
      ensures r[L.modulus + i] == ModBit(modBin, i)
    {
      assert r[L.modulus + i] == u[L.modulus + i];
    }
  }

  lemma {:induction false} SteppedTrans(u: seq<bool>, v: seq<bool>, w: seq<bool>, L: Layout, x: nat, y: nat, x': nat, y': nat)
    requires Stepped(u, v, L, x, y) && Stepped(v, w, L, x', y')
    ensures Stepped(u, w, L, x', y')
  {
  }

  /** The low n qubits of b after the write hold the value written, its top qubit is 0. */
  lemma {:induction false} WrittenLow(u0: seq<bool>, w: seq<bool>, L: Layout, v: nat)
    requires L.b + L.n + 1 <= |u0| && Written(u0, w, L.b, L.n + 1, v) && v < Pow2(L.n)
    ensures Val(w, L.b, L.n) == v && !w[L.b + L.n]
  {
    Pow2Monotone(L.n, L.n + 1);
    LowSmall(v, L.n + 1);
    ValTop(w, L.b, L.n);
  }

  /** After the swaps a holds what the low n qubits of b held. */
  lemma {:induction false} ExchangedA(w: seq<bool>, L: Layout)
    requires L.a + L.n <= |w| && L.b + L.n <= |w| && Disjoint(L.a, L.n, L.b, L.n)
    ensures Val(Exchanged(w, L, L.n), L.a, L.n) == Val(w, L.b, L.n)
  {
    var r := Exchanged(w, L, L.n);
    var ra, wb := r[L.a..L.a + L.n], w[L.b..L.b + L.n];
    assert ra == wb by {
      forall i | 0 <= i < L.n
        ensures ra[i] == wb[i]
      {
        assert ra[i] == r[L.a + i] == ExchangedBit(w, L, L.n, L.a + i);
      }
    }
    ValFrame(r, w, L.a, L.b, L.n);
  }

  /** After the swaps the low n qubits of b hold what a held. */
  lemma {:induction false} ExchangedB(w: seq<bool>, L: Layout)
    requires L.a + L.n <= |w| && L.b + L.n <= |w| && Disjoint(L.a, L.n, L.b, L.n)
    ensures Val(Exchanged(w, L, L.n), L.b, L.n) == Val(w, L.a, L.n)
  {
    var r := Exchanged(w, L, L.n);
    var rb, wa := r[L.b..L.b + L.n], w[L.a..L.a + L.n];
    assert rb == wa by {
      forall i | 0 <= i < L.n
        ensures rb[i] == wa[i]
      {
        assert rb[i] == r[L.b + i] == ExchangedBit(w, L, L.n, L.b + i);
      }
    }
    ValFrame(r, w, L.b, L.a, L.n);
  }

  lemma {:induction false} ExchangeRegisters(w: seq<bool>, L: Layout)
    requires L.a + L.n <= |w| && L.b + L.n + 1 <= |w| && Disjoint(L.a, L.n, L.b, L.n + 1) && !w[L.b + L.n]
    ensures var r := Exchanged(w, L, L.n);
      Val(r, L.a, L.n) == Val(w, L.b, L.n) && Val(r, L.b, L.n + 1) == Val(w, L.a, L.n) &&
      forall q :: 0 <= q < |w| && !(L.a <= q < L.a + L.n) && !(L.b <= q < L.b + L.n + 1) ==> r[q] == w[q]
  {
    var r := Exchanged(w, L, L.n);
    ExchangedA(w, L);
    ExchangedB(w, L);
    assert r[L.b + L.n] == ExchangedBit(w, L, L.n, L.b + L.n);
    ValTop(r, L.b, L.n);
    forall q | 0 <= q < |w| && !(L.a <= q < L.a + L.n) && !(L.b <= q < L.b + L.n + 1)
      ensures r[q] == w[q]
    {
      assert r[q] == ExchangedBit(w, L, L.n, q);
    }
  }

  /** What addmodN leaves for the swaps: (a + b) mod M in the low n qubits of b, its top qubit 0, a unchanged. */
  lemma {:induction false} AddedRegisters(u0: seq<bool>, w: seq<bool>, L: Layout, modBin: string)
    requires Ready(u0, L, modBin)
    requires var x, y, m := Val(u0, L.a, L.n), Val(u0, L.b, L.n + 1), RegisterValue(modBin);
      Written(u0, w, L.b, L.n + 1, (x + y) % m)
    ensures var x, y, m := Val(u0, L.a, L.n), Val(u0, L.b, L.n + 1), RegisterValue(modBin);
      Val(w, L.b, L.n) == (x + y) % m && !w[L.b + L.n] && Val(w, L.a, L.n) == x
  {
    var x, y, m := Val(u0, L.a, L.n), Val(u0, L.b, L.n + 1), RegisterValue(modBin);
    ModulusBound(modBin, L.n);
    WrittenLow(u0, w, L, (x + y) % m);
    ValUnchanged(u0, w, L.a, L.n);
  }

  /** The swaps after addmodN: a receives (a + b) mod M and b receives a. */
  lemma {:induction false} ExchangeValues(u0: seq<bool>, w: seq<bool>, r: seq<bool>, L: Layout, modBin: string)
    requires Ready(u0, L, modBin)
    requires var x, y, m := Val(u0, L.a, L.n), Val(u0, L.b, L.n + 1), RegisterValue(modBin);
      Written(u0, w, L.b, L.n + 1, (x + y) % m)
    requires r == Exchanged(w, L, L.n)
    ensures var x, y, m := Val(u0, L.a, L.n), Val(u0, L.b, L.n + 1), RegisterValue(modBin);
      Stepped(u0, r, L, (x + y) % m, x)
  {
    AddedRegisters(u0, w, L, modBin);
    ExchangeRegisters(w, L);
  }

  /** The swaps of fibmodN after any circuit that wrote (a + b) mod M into b. */
  lemma {:induction false} SwapsAfterAdd(added: GateList, s: seq<bool>, u0: seq<bool>, L: Layout, modBin: string)
    requires Ready(u0, L, modBin) && |s| == |u0|
    requires var x, y, m := Val(u0, L.a, L.n), Val(u0, L.b, L.n + 1), RegisterValue(modBin);
      Written(u0, Run(added, s), L.b, L.n + 1, (x + y) % m)
    ensures var x, y, m := Val(u0, L.a, L.n), Val(u0, L.b, L.n + 1), RegisterValue(modBin);
      Stepped(u0, Run(SwapsOnto(added, L, L.n), s), L, (x + y) % m, x)
  {
    SwapsEffect(added, s, L, L.n);
    ExchangeValues(u0, Run(added, s), Run(SwapsOnto(added, L, L.n), s), L, modBin);
  }

  /** fibmodN maps (a, b) to ((a + b) mod M, a) and changes no other qubit. */
  lemma {:induction false} FibModNCorrect(circuit: GateList, s: seq<bool>, L: Layout, modBin: string)
    requires Ready(Run(circuit, s), L, modBin)
    ensures var u0 := Run(circuit, s);
      var x, y, m := Val(u0, L.a, L.n), Val(u0, L.b, L.n + 1), RegisterValue(modBin);
      Stepped(u0, Run(FibModNOnto(circuit, L, modBin), s), L, (x + y) % m, x)
  {
    AddModNCorrect(circuit, s, L, modBin);
    SwapsAfterAdd(AddModNOnto(circuit, L, modBin), s, Run(circuit, s), L, modBin);
  }

  // ---------------------------------------------------------------- the repetition

  /** A state addmodN can work on is a zero-step of itself. */
  lemma {:induction false} SteppedRefl(u: seq<bool>, L: Layout)
    requires L.a + L.n <= |u| && L.b + L.n + 1 <= |u|
    ensures Stepped(u, u, L, Val(u, L.a, L.n), Val(u, L.b, L.n + 1))
  {
  }

  /** From a state stepped to p below the modulus, one more fibmodN steps it to the next pair. */
  lemma {:induction false} RepeatNext(u0: seq<bool>, before: GateList, s: seq<bool>, L: Layout, modBin: string, p: (nat, nat))
    requires Ready(u0, L, modBin) && Stepped(u0, Run(before, s), L, p.0, p.1)
    requires p.0 < RegisterValue(modBin) && p.1 < RegisterValue(modBin)
    ensures Stepped(u0, Run(FibModNOnto(before, L, modBin), s), L, (p.0 + p.1) % RegisterValue(modBin), p.0)
  {
    var m := RegisterValue(modBin);
    SteppedReady(u0, Run(before, s), L, modBin, p.0, p.1);
    FibModNCorrect(before, s, L, modBin);
    SteppedTrans(u0, Run(before, s), Run(FibModNOnto(before, L, modBin), s), L, p.0, p.1, (p.0 + p.1) % m, p.0);
  }

  /** fibmodN applied k times takes (a, b) to FibPairs(a, b, M, k) and changes no other qubit. */
  lemma {:induction false} RepeatCorrect(circuit: GateList, s: seq<bool>, L: Layout, modBin: string, k: nat)
    requires Ready(Run(circuit, s), L, modBin)
    ensures var u0 := Run(circuit, s);
      var p := FibPairs(Val(u0, L.a, L.n), Val(u0, L.b, L.n + 1), RegisterValue(modBin), k);
      Stepped(u0, Run(RepeatOnto(circuit, L, modBin, k), s), L, p.0, p.1)
  {
    var u0 := Run(circuit, s);
    if k == 0 {
      SteppedRefl(u0, L);
      assert RepeatOnto(circuit, L, modBin, 0) == circuit;
    } else {
      var before := RepeatOnto(circuit, L, modBin, k - 1);
      var p := FibPairs(Val(u0, L.a, L.n), Val(u0, L.b, L.n + 1), RegisterValue(modBin), k - 1);
      RepeatCorrect(circuit, s, L, modBin, k - 1);
      RepeatNext(u0, before, s, L, modBin, p);
      assert RepeatOnto(circuit, L, modBin, k) == FibModNOnto(before, L, modBin);
      assert FibPairs(Val(u0, L.a, L.n), Val(u0, L.b, L.n + 1), RegisterValue(modBin), k) ==
        ((p.0 + p.1) % RegisterValue(modBin), p.0);
    }
  }

  // ---------------------------------------------------------------- c_fibmodN

  /** The target register of c_fibmodN before the gate: a and b below M, the N
      register, c and t all 0 (N is an ancilla the gate loads itself). */
  ghost predicate Idle(u: seq<bool>, L: Layout, modBin: string)
  {
    ValidLayout(L, |u|) && |modBin| <= L.n && Zero(u, L.modulus, L.n) && Zero(u, L.c, L.n) && !u[L.t] &&
    Val(u, L.a, L.n) < RegisterValue(modBin) && Val(u, L.b, L.n + 1) < RegisterValue(modBin)
  }

  /** The loading loop flips the qubits of reg at which mod_bin has a '1'. */
  lemma {:induction false} LoadToggled(circuit: GateList, s: seq<bool>, modBin: string, reg: nat)
    requires reg + |modBin| <= |s|
    ensures Run(LoadOnto(circuit, modBin, reg, |modBin|), s) == Toggled(Run(circuit, s), modBin, reg, true)
  {
    LoadEffect(circuit, s, modBin, reg, |modBin|);
  }

  /** Loading mod_bin into the idle N register leaves a state addmodN can work on. */
  lemma {:induction false} LoadedReady(u: seq<bool>, L: Layout, modBin: string)
    requires Idle(u, L, modBin)
    ensures var r := Toggled(u, modBin, L.modulus, true);
      Ready(r, L, modBin) && Val(r, L.a, L.n) == Val(u, L.a, L.n) && Val(r, L.b, L.n + 1) == Val(u, L.b, L.n + 1)
  {
    var r := Toggled(u, modBin, L.modulus, true);
    ToggleOn(u, modBin, L.modulus, L.n);
    ZeroKept(u, r, L.modulus, L.n, L.c, L.n);
    ValUnchanged(u, r, L.a, L.n);
    ValUnchanged(u, r, L.b, L.n + 1);
  }

  /** N still holds mod_bin after a step, since a step leaves N alone. */
  lemma {:induction false} StepKeepsModulus(u1: seq<bool>, v: seq<bool>, L: Layout, modBin: string, x: nat, y: nat)
    requires Disjoint(L.a, L.n, L.modulus, L.n) && Disjoint(L.b, L.n + 1, L.modulus, L.n)
    requires Holds(u1, L.modulus, L.n, modBin) && Stepped(u1, v, L, x, y)
    ensures Holds(v, L.modulus, L.n, modBin)
  {
    forall i | 0 <= i < L.n
      ensures v[L.modulus + i] == ModBit(modBin, i)
    {
      assert v[L.modulus + i] == u1[L.modulus + i];
    }
  }

  /** Toggling N on before a step and off after it changes nothing outside a and b. */
  lemma {:induction false} ToggledFrame(u: seq<bool>, u1: seq<bool>, v: seq<bool>, w: seq<bool>, L: Layout, x: nat, y: nat)
    requires SameOutside(u, u1, L.modulus, L.n) && SameOutside(v, w, L.modulus, L.n)
    requires Zero(u, L.modulus, L.n) && Zero(w, L.modulus, L.n) && Stepped(u1, v, L, x, y)
    ensures forall q :: 0 <= q < |u| && !(L.a <= q < L.a + L.n) && !(L.b <= q < L.b + L.n + 1) ==> w[q] == u[q]
  {
    forall q | 0 <= q < |u| && !(L.a <= q < L.a + L.n) && !(L.b <= q < L.b + L.n + 1)
      ensures w[q] == u[q]
    {
      if L.modulus <= q < L.modulus + L.n {
        assert !w[q] && !u[q];
      } else {
        assert w[q] == v[q] == u1[q];
      }
    }
  }

  /** Unloading after the steps clears N again, so the whole gate is a step of the idle state. */
  lemma {:induction false} UnloadedStepped(u: seq<bool>, v: seq<bool>, L: Layout, modBin: string, x: nat, y: nat)
    requires Idle(u, L, modBin) && Stepped(Toggled(u, modBin, L.modulus, true), v, L, x, y)
    ensures Stepped(u, Toggled(v, modBin, L.modulus, true), L, x, y)
  {
    var u1, w := Toggled(u, modBin, L.modulus, true), Toggled(v, modBin, L.modulus, true);
    ToggleOn(u, modBin, L.modulus, L.n);
    StepKeepsModulus(u1, v, L, modBin, x, y);
    ToggleOn(v, modBin, L.modulus, L.n);
    ToggledFrame(u, u1, v, w, L, x, y);
    ValUnchanged(v, w, L.a, L.n);
    ValUnchanged(v, w, L.b, L.n + 1);
  }

  /** Unloading after a circuit that stepped the loaded state steps the idle state. */
  lemma {:induction false} UnloadAfter(repeated: GateList, s: seq<bool>, L: Layout, modBin: string, x: nat, y: nat)
    requires Idle(s, L, modBin) && Stepped(Toggled(s, modBin, L.modulus, true), Run(repeated, s), L, x, y)
    ensures Stepped(s, Run(LoadOnto(repeated, modBin, L.modulus, |modBin|), s), L, x, y)
  {
    LoadToggled(repeated, s, modBin, L.modulus);
    UnloadedStepped(s, Run(repeated, s), L, modBin, x, y);
  }

  /** Load, `power` fibmodN steps, unload: on an idle state (a, b) becomes
      FibPairs(a, b, M, power) and every other qubit ends as it started. */
  lemma {:induction false} LoadRepeatUnload(loaded: GateList, s: seq<bool>, L: Layout, modBin: string, power: nat)
    requires L.n >= 1 && Idle(s, L, modBin) && loaded == LoadOnto(Empty, modBin, L.modulus, |modBin|)
    ensures var p := FibPairs(Val(s, L.a, L.n), Val(s, L.b, L.n + 1), RegisterValue(modBin), power);
      Stepped(s, Run(LoadOnto(RepeatOnto(loaded, L, modBin, power), modBin, L.modulus, |modBin|), s), L, p.0, p.1)
  {
    LoadToggled(Empty, s, modBin, L.modulus);
    LoadedReady(s, L, modBin);
    RepeatCorrect(loaded, s, L, modBin, power);
    var p := FibPairs(Val(s, L.a, L.n), Val(s, L.b, L.n + 1), RegisterValue(modBin), power);
    UnloadAfter(RepeatOnto(loaded, L, modBin, power), s, L, modBin, p.0, p.1);
  }

  /** The circuit of c_fibmodN, run on an idle target, applies fibmodN `power`
      times: (a, b) becomes FibPairs(a, b, M, power) and every other qubit,
      the N register included, ends as it started. */
  lemma {:induction false} CFibModNCorrect(n: nat, modBin: string, power: nat, s: seq<bool>)
    requires n >= 1 && |s| == 4 * n + 2 && Idle(s, StdLayout(n), modBin)
    ensures var L := StdLayout(n);
      var p := FibPairs(Val(s, L.a, L.n), Val(s, L.b, L.n + 1), RegisterValue(modBin), power);
      Stepped(s, Run(CFibModNBody(n, modBin, power), s), L, p.0, p.1)
  {
    var L := StdLayout(n);
    LoadRepeatUnload(LoadOnto(Empty, modBin, L.modulus, |modBin|), s, L, modBin, power);
  }

  /** Started from a = 1 and b = 0, c_fibmodN leaves F(power + 1) mod M in a
      and F(power) mod M in b, with N, c and t back at 0. */
  lemma {:induction false} CFibModNFibonacci(n: nat, modBin: string, power: nat, s: seq<bool>)
    requires n >= 1 && |s| == 4 * n + 2 && Idle(s, StdLayout(n), modBin)
    requires Val(s, 0, n) == 1 && Val(s, n, n + 1) == 0
    ensures var r, m := Run(CFibModNBody(n, modBin, power), s), RegisterValue(modBin);
      Val(r, 0, n) == Fib(power + 1) % m && Val(r, n, n + 1) == Fib(power) % m &&
      Zero(r, 2 * n + 1, n) && Zero(r, 3 * n + 1, n) && !r[4 * n + 1]
  {
    CFibModNCorrect(n, modBin, power, s);
    FibPairsFromOne(RegisterValue(modBin), power);
  }

  // ---------------------------------------------------------------- the gates exist

  lemma {:induction false} SwapsWellFormed(circuit: GateList, L: Layout, k: nat, width: nat)
    requires AllWellFormed(circuit, width) && ValidLayout(L, width) && k <= L.n
    ensures AllWellFormed(SwapsOnto(circuit, L, k), width)
  {
    if k > 0 {
      SwapsWellFormed(circuit, L, k - 1, width);
    }
  }

  lemma {:induction false} RepeatWellFormed(circuit: GateList, L: Layout, modBin: string, iterations: nat, width: nat)
    requires AllWellFormed(circuit, width) && ValidLayout(L, width) && |modBin| <= L.n
    ensures AllWellFormed(RepeatOnto(circuit, L, modBin, iterations), width)
  {
    if iterations > 0 {
      var before := RepeatOnto(circuit, L, modBin, iterations - 1);
      RepeatWellFormed(circuit, L, modBin, iterations - 1, width);
      AddModNWellFormed(before, L, modBin, width);
      SwapsWellFormed(AddModNOnto(before, L, modBin), L, L.n, width);
    }
  }

  lemma {:induction false} LoadWellFormed(circuit: GateList, modBin: string, reg: nat, k: nat, width: nat)
    requires AllWellFormed(circuit, width) && k <= |modBin| && reg + k <= width
    ensures AllWellFormed(LoadOnto(circuit, modBin, reg, k), width)
  {
    if k > 0 {
      LoadWellFormed(circuit, modBin, reg, k - 1, width);
    }
  }

  /** Every gate of the circuit c_fibmodN turns into a gate names one of its
      4n + 2 qubits, and no gate names a qubit twice. */
  lemma {:induction false} CFibModNWellFormed(n: nat, modBin: string, power: nat)
    requires n >= 1 && |modBin| <= n
    ensures AllWellFormed(CFibModNBody(n, modBin, power), 4 * n + 2)
  {
    var L, width := StdLayout(n), 4 * n + 2;
    StdLayoutValid(n);
    var loaded := LoadOnto(Empty, modBin, L.modulus, |modBin|);
    LoadWellFormed(Empty, modBin, L.modulus, |modBin|, width);
    RepeatWellFormed(loaded, L, modBin, power, width);
    LoadWellFormed(RepeatOnto(loaded, L, modBin, power), modBin, L.modulus, |modBin|, width);
  }
}
