/** What addmodN, fibmodN and the body of c_fibmodN compute on classical
    basis states.

    The modulus register is filled by the loop over mod_bin, which writes
    mod_bin[i] into N[i]. N[0] is the least significant qubit of the adder's
    addend, so the value the circuit reduces by is RegisterValue(mod_bin): the
    string read least significant character first. Every modular property
    below is stated in terms of that value M.
 */
module ModularCorrectness {
  import opened Bits
  import opened Circuits
  import opened QuantumArithmetic
  import opened AdderStructure
  import opened AdderCorrectness

  // ---------------------------------------------------------------- the modulus register

  /** The value of a register whose qubit i is mod_bin[i] == '1', for i < |mod_bin|. */
  function RegisterValue(modBin: string): (m: nat)
    ensures m < Pow2(|modBin|)
  {
    if |modBin| == 0 then 0 else B2N(modBin[0] == '1') + 2 * RegisterValue(modBin[1..])
  }

  /** The bit the loading loop writes into qubit i of the modulus register:
      `int(qubit) == 1` for the i-th character, and 0 past the end of mod_bin. */
  predicate ModBit(modBin: string, i: nat)
  {
    i < |modBin| && modBin[i] == '1'
  }

  /** The n-qubit register at reg holds mod_bin as the loading loop writes it. */
  ghost predicate Holds(u: seq<bool>, reg: nat, n: nat, modBin: string)
  {
    |modBin| <= n && reg + n <= |u| && forall i :: 0 <= i < n ==> u[reg + i] == ModBit(modBin, i)
  }

  lemma {:induction false} HoldsValue(u: seq<bool>, reg: nat, n: nat, modBin: string)
    requires Holds(u, reg, n, modBin)
    ensures Val(u, reg, n) == RegisterValue(modBin)
    decreases n
  {
    if n > 0 {
      if |modBin| == 0 {
        forall q | reg <= q < reg + n && q < |u|
          ensures !u[q]
        {
          assert u[reg + (q - reg)] == ModBit(modBin, q - reg);
        }
        ValZero(u, reg, n);
      } else {
        assert u[reg + 0] == ModBit(modBin, 0);
        forall i | 0 <= i < n - 1
          ensures u[reg + 1 + i] == ModBit(modBin[1..], i)
        {
          assert u[reg + (i + 1)] == ModBit(modBin, i + 1);
        }
        HoldsValue(u, reg + 1, n - 1, modBin[1..]);
      }
    }
  }

  /** The modulus fits in its n-qubit register. */
  lemma {:induction false} ModulusBound(modBin: string, n: nat)
    requires |modBin| <= n
    ensures RegisterValue(modBin) < Pow2(n)
  {
    Pow2Monotone(|modBin|, n);
  }

  // ---------------------------------------------------------------- the loading loops

  /** x(reg + i) for every i < k with mod_bin[i] == '1': those qubits flip, no other does. */
  lemma {:induction false} LoadEffect(circuit: GateList, s: seq<bool>, modBin: string, reg: nat, k: nat)
    requires k <= |modBin| && reg + k <= |s|
    ensures var u, r := Run(circuit, s), Run(LoadOnto(circuit, modBin, reg, k), s);
      forall q :: 0 <= q < |s| ==> r[q] == (if reg <= q < reg + k && modBin[q - reg] == '1' then !u[q] else u[q])
  {
    if k > 0 {
      LoadEffect(circuit, s, modBin, reg, k - 1);
    }
  }

  /** cx(t, reg + i) for every i < k with mod_bin[i] == '1': with t set those
      qubits flip, with t clear nothing changes. */
  lemma {:induction false} ControlledLoadEffect(circuit: GateList, s: seq<bool>, modBin: string, t: nat, reg: nat, k: nat)
    requires k <= |modBin| && reg + k <= |s| && t < |s| && Outside(t, reg, k)
    ensures var u, r := Run(circuit, s), Run(ControlledLoadOnto(circuit, modBin, t, reg, k), s);
      forall q :: 0 <= q < |s| ==> r[q] == (if reg <= q < reg + k && u[t] && modBin[q - reg] == '1' then !u[q] else u[q])
  {
    if k > 0 {
      ControlledLoadEffect(circuit, s, modBin, t, reg, k - 1);
    }
  }

  /** Loading into a zero register makes it hold mod_bin; loading again clears it. */
  lemma {:induction false} LoadToggles(u: seq<bool>, r: seq<bool>, modBin: string, reg: nat, n: nat)
    requires |modBin| <= n && reg + n <= |u| && |r| == |u|
    requires forall q :: 0 <= q < |u| ==>
      r[q] == (if reg <= q < reg + |modBin| && modBin[q - reg] == '1' then !u[q] else u[q])
    ensures SameOutside(u, r, reg, n)
    ensures Zero(u, reg, n) ==> Holds(r, reg, n, modBin)
    ensures Holds(u, reg, n, modBin) ==> Zero(r, reg, n)
  {
    if Zero(u, reg, n) {
      forall i | 0 <= i < n
        ensures r[reg + i] == ModBit(modBin, i)
      {
        assert !u[reg + i];
      }
    }
    if Holds(u, reg, n, modBin) {
      forall q | reg <= q < reg + n && q < |r|
        ensures !r[q]
      {
        assert u[reg + (q - reg)] == ModBit(modBin, q - reg);
      }
    }
  }

  // ---------------------------------------------------------------- registers of the modular step

  /** The five registers of addmodN exist, do not overlap, and leave room for the flag t. */
  predicate ValidLayout(L: Layout, width: nat)
  {
    ValidRegs(AddendRegs(L), width) && ValidRegs(ModulusRegs(L), width) &&
    Disjoint(L.a, L.n, L.modulus, L.n) && L.t < width &&
    Outside(L.t, L.a, L.n) && Outside(L.t, L.b, L.n + 1) && Outside(L.t, L.modulus, L.n) && Outside(L.t, L.c, L.n)
  }

  /** The registers of QuantumCircuit(a, b, N, c, t) are a valid layout of 4n + 2 qubits. */
  lemma {:induction false} StdLayoutValid(n: nat)
    requires n >= 1
    ensures ValidLayout(StdLayout(n), 4 * n + 2)
  {
  }

  /** What addmodN expects: the modulus register holds mod_bin, c and t are
      0, and a and b are both below the modulus M. */
  ghost predicate Ready(u: seq<bool>, L: Layout, modBin: string)
  {
    ValidLayout(L, |u|) && Holds(u, L.modulus, L.n, modBin) && Zero(u, L.c, L.n) && !u[L.t] &&
    Val(u, L.a, L.n) < RegisterValue(modBin) && Val(u, L.b, L.n + 1) < RegisterValue(modBin)
  }

  /** Every qubit other than t and those of b is as in u. */
  ghost predicate Kept(u: seq<bool>, w: seq<bool>, L: Layout)
  {
    |w| == |u| && forall q :: 0 <= q < |u| && q != L.t && !(L.b <= q < L.b + L.n + 1) ==> w[q] == u[q]
  }

  /** w is u with v in b and the flag t set to flag. */
  ghost predicate Rewritten(u: seq<bool>, w: seq<bool>, L: Layout, v: nat, flag: bool)
  {
    L.t < |u| && L.b + L.n + 1 <= |u| && Kept(u, w, L) && w[L.t] == flag && Val(w, L.b, L.n + 1) == v
  }

  // ---------------------------------------------------------------- the arithmetic of addmodN

  /** The comparison: b - M modulo 2^(n + 1) has its top bit set exactly when
      a + b < M; when it is clear it is a + b - M, and adding M back otherwise gives a + b. */
  lemma {:induction false} CompareArith(x: nat, y: nat, m: nat, h: nat)
    requires x < m && y < m && m <= h
    ensures var d := (x + y - m) % (2 * h);
      (d >= h <==> x + y < m) && (x + y >= m ==> d == x + y - m) && (x + y < m ==> (m + d) % (2 * h) == x + y)
  {
    var d := (x + y - m) % (2 * h);
    if x + y >= m {
      ModUnique(x + y - m, 2 * h, 0, x + y - m);
    } else {
      ModUnique(x + y - m, 2 * h, -1, x + y - m + 2 * h);
      ModUnique(m + d, 2 * h, 1, x + y);
    }
  }

  /** Restoring the flag: ((a + b) mod M - a) modulo 2^(n + 1) has its top bit
      set exactly when a + b >= M, and adding a back gives (a + b) mod M. */
  lemma {:induction false} UndoArith(x: nat, y: nat, m: nat, h: nat)
    requires x < m && y < m && m <= h
    ensures var e := ((x + y) % m - x) % (2 * h);
      (e >= h <==> x + y >= m) && (x + e) % (2 * h) == (x + y) % m
  {
    if x + y >= m {
      ModUnique(x + y, m, 1, x + y - m);
      ModUnique(y - m, 2 * h, -1, y - m + 2 * h);
      ModUnique(x + (y - m + 2 * h), 2 * h, 1, x + y - m);
    } else {
      ModUnique(x + y, m, 0, x + y);
      ModUnique(y, 2 * h, 0, y);
      ModUnique(x + y, 2 * h, 0, x + y);
    }
  }

  // ---------------------------------------------------------------- addmodN on states

  /** The state after the controlled loading loop: with `on` the qubits of
      reg at which mod_bin has a '1' are flipped, otherwise nothing changes. */
  function Toggled(u: seq<bool>, modBin: string, reg: nat, on: bool): (r: seq<bool>)
    ensures |r| == |u|
    ensures forall q :: 0 <= q < |u| ==>
      r[q] == (if on && reg <= q < reg + |modBin| && modBin[q - reg] == '1' then !u[q] else u[q])
  {
    seq(|u|, q requires 0 <= q < |u| =>
      if on && reg <= q < reg + |modBin| && modBin[q - reg] == '1' then !u[q] else u[q])
  }

  lemma {:induction false} ControlledLoadToggles(circuit: GateList, s: seq<bool>, modBin: string, t: nat, reg: nat)
    requires reg + |modBin| <= |s| && t < |s| && Outside(t, reg, |modBin|)
    ensures var u := Run(circuit, s);
      Run(ControlledLoadOnto(circuit, modBin, t, reg, |modBin|), s) == Toggled(u, modBin, reg, u[t])
  {
    ControlledLoadEffect(circuit, s, modBin, t, reg, |modBin|);
  }

  /** Loading into a zero register makes it hold mod_bin; loading again clears it. */
  lemma {:induction false} ToggleOn(u: seq<bool>, modBin: string, reg: nat, n: nat)
    requires |modBin| <= n && reg + n <= |u|
    ensures SameOutside(u, Toggled(u, modBin, reg, true), reg, n)
    ensures Zero(u, reg, n) ==> Holds(Toggled(u, modBin, reg, true), reg, n, modBin)
    ensures Holds(u, reg, n, modBin) ==> Zero(Toggled(u, modBin, reg, true), reg, n)
  {
    LoadToggles(u, Toggled(u, modBin, reg, true), modBin, reg, n);
  }

  lemma {:induction false} ToggleOff(u: seq<bool>, modBin: string, reg: nat)
    ensures Toggled(u, modBin, reg, false) == u
  {
  }

  /** A register disjoint from the one written stays 0. */
  lemma {:induction false} ZeroKept(u: seq<bool>, w: seq<bool>, off: nat, len: nat, reg: nat, n: nat)
    requires SameOutside(u, w, off, len) && Disjoint(off, len, reg, n) && Zero(u, reg, n)
    ensures Zero(w, reg, n)
  {
  }

  /** Writing into b keeps the other qubits. */
  lemma {:induction false} KeptWritten(u0: seq<bool>, u: seq<bool>, w: seq<bool>, L: Layout)
    requires Kept(u0, u, L) && SameOutside(u, w, L.b, L.n + 1)
    ensures Kept(u0, w, L)
  {
  }

  /** Changing t keeps the other qubits. */
  lemma {:induction false} KeptFlag(u0: seq<bool>, u: seq<bool>, z: bool, L: Layout)
    requires Kept(u0, u, L) && L.t < |u|
    ensures Kept(u0, u[L.t := z], L)
  {
  }

  /** Qubits outside b, t and the modulus register that are as in u, with
      the modulus register holding mod_bin in both u0 and w, leave Kept intact. */
  lemma {:induction false} KeptReloaded(u0: seq<bool>, u: seq<bool>, w: seq<bool>, L: Layout, modBin: string)
    requires Kept(u0, u, L) && |w| == |u|
    requires forall q :: 0 <= q < |u| && q != L.t && !(L.b <= q < L.b + L.n + 1) && !(L.modulus <= q < L.modulus + L.n) ==> w[q] == u[q]
    requires Holds(u0, L.modulus, L.n, modBin) && Holds(w, L.modulus, L.n, modBin)
    ensures Kept(u0, w, L)
  {
    forall q | 0 <= q < |u0| && q != L.t && !(L.b <= q < L.b + L.n + 1)
      ensures w[q] == u0[q]
    {
      if L.modulus <= q < L.modulus + L.n {
        assert w[L.modulus + (q - L.modulus)] == ModBit(modBin, q - L.modulus);
        assert u0[L.modulus + (q - L.modulus)] == ModBit(modBin, q - L.modulus);
      }
    }
  }

  /** Once t is back to its old value only b differs. */
  lemma {:induction false} KeptClear(u0: seq<bool>, w: seq<bool>, L: Layout)
    requires Kept(u0, w, L) && L.t < |u0| && w[L.t] == u0[L.t]
    ensures SameOutside(u0, w, L.b, L.n + 1)
  {
  }

  /** The first stage on values: after the addition b holds x + y, after
      subtracting M it holds d = (x + y - M) mod 2^(n + 1), whose top bit is
      set exactly when x + y < M. */
  lemma {:induction false} CompareValue(u0: seq<bool>, u1: seq<bool>, u2: seq<bool>, L: Layout, modBin: string, x: nat, y: nat, m: nat)
    requires L.modulus + L.n <= |u0| && Disjoint(L.b, L.n + 1, L.modulus, L.n)
    requires Holds(u0, L.modulus, L.n, modBin) && m == RegisterValue(modBin) && x < m && y < m
    requires Written(u0, u1, L.b, L.n + 1, x + y)
    requires Written(u1, u2, L.b, L.n + 1, (Val(u1, L.b, L.n + 1) - Val(u1, L.modulus, L.n)) % Pow2(L.n + 1))
    ensures Val(u2, L.b, L.n + 1) == (x + y - m) % Pow2(L.n + 1)
    ensures (x + y - m) % Pow2(L.n + 1) < Pow2(L.n + 1)
    ensures !u2[L.b + L.n] <==> x + y >= m
  {
    HoldsValue(u0, L.modulus, L.n, modBin);
    ModulusBound(modBin, L.n);
    assert Pow2(L.n + 1) == 2 * Pow2(L.n);
    LowSmall(x + y, L.n + 1);
    ValUnchanged(u0, u1, L.modulus, L.n);
    SubtractValue(u1, u2, L, x, y, m);
  }

  /** Subtracting M from b = x + y. */
  lemma {:induction false} SubtractValue(u1: seq<bool>, u2: seq<bool>, L: Layout, x: nat, y: nat, m: nat)
    requires x < m && y < m && m <= Pow2(L.n) && L.b + L.n + 1 <= |u1| && L.modulus + L.n <= |u1|
    requires Val(u1, L.b, L.n + 1) == x + y && Val(u1, L.modulus, L.n) == m
    requires Written(u1, u2, L.b, L.n + 1, (Val(u1, L.b, L.n + 1) - Val(u1, L.modulus, L.n)) % Pow2(L.n + 1))
    ensures Val(u2, L.b, L.n + 1) == (x + y - m) % Pow2(L.n + 1)
    ensures (x + y - m) % Pow2(L.n + 1) < Pow2(L.n + 1)
    ensures !u2[L.b + L.n] <==> x + y >= m
  {
    var h, p := Pow2(L.n), Pow2(L.n + 1);
    assert p == 2 * h;
    CompareArith(x, y, m, h);
    LowSmall((x + y - m) % p, L.n + 1);
    TopBit(u2, L.b, L.n);
  }

  /** The first stage: add a, subtract M, and copy "no borrow" (b's top bit clear) into t. */
  lemma {:induction false} CompareStates(u0: seq<bool>, u1: seq<bool>, u2: seq<bool>, u3: seq<bool>, L: Layout, modBin: string, x: nat, y: nat, m: nat)
    requires Ready(u0, L, modBin) && x == Val(u0, L.a, L.n) && y == Val(u0, L.b, L.n + 1) && m == RegisterValue(modBin)
    requires Written(u0, u1, L.b, L.n + 1, x + y)
    requires Written(u1, u2, L.b, L.n + 1, (Val(u1, L.b, L.n + 1) - Val(u1, L.modulus, L.n)) % Pow2(L.n + 1))
    requires u3 == u2[L.t := u2[L.t] != !u2[L.b + L.n]]
    ensures Rewritten(u0, u3, L, (x + y - m) % Pow2(L.n + 1), x + y >= m)
  {
    CompareValue(u0, u1, u2, L, modBin, x, y, m);
    KeptWritten(u0, u0, u1, L);
    KeptWritten(u0, u1, u2, L);
    KeptFlag(u0, u2, u2[L.t] != !u2[L.b + L.n], L);
    assert u2[L.t] == u0[L.t];
    ValUpdate(u2, L.t, u2[L.t] != !u2[L.b + L.n], L.b, L.n + 1);
  }

  /** The qubits Kept leaves alone still hold mod_bin, 0 and x. */
  lemma {:induction false} KeptReady(u0: seq<bool>, w: seq<bool>, L: Layout, modBin: string)
    requires Ready(u0, L, modBin) && Kept(u0, w, L)
    ensures Holds(w, L.modulus, L.n, modBin) && Zero(w, L.c, L.n) && Val(w, L.a, L.n) == Val(u0, L.a, L.n)
  {
    forall i | 0 <= i < L.n
      ensures w[L.modulus + i] == ModBit(modBin, i)
    {
      assert w[L.modulus + i] == u0[L.modulus + i];
    }
    ValUnchanged(u0, w, L.a, L.n);
  }

  /** The second stage when t is set (a + b >= M): the modulus register is
      cleared, the addition of 0 leaves b at x + y - M, and the register is reloaded. */
  lemma {:induction false} CorrectWhenSet(u0: seq<bool>, u3: seq<bool>, u5: seq<bool>, L: Layout, modBin: string, x: nat, y: nat, m: nat)
    requires Ready(u0, L, modBin) && x == Val(u0, L.a, L.n) && y == Val(u0, L.b, L.n + 1) && m == RegisterValue(modBin)
    requires x + y >= m && Rewritten(u0, u3, L, (x + y - m) % Pow2(L.n + 1), true)
    requires var u4 := Toggled(u3, modBin, L.modulus, true);
      Written(u4, u5, L.b, L.n + 1, Val(u4, L.modulus, L.n) + Val(u4, L.b, L.n + 1))
    ensures Rewritten(u0, Toggled(u5, modBin, L.modulus, u5[L.t]), L, (x + y) % m, true)
  {
    var d := (x + y - m) % Pow2(L.n + 1);
    ModulusBound(modBin, L.n);
    CorrectArith(x, y, m, L.n);
    KeptReady(u0, u3, L, modBin);
    SetValue(u3, u5, L, modBin, d);
    assert u5[L.t] == u3[L.t];
    SetFrame(u0, u3, u5, L, modBin);
  }

  /** With the modulus register cleared, adding it changes nothing in b, and it stays 0. */
  lemma {:induction false} SetValue(u3: seq<bool>, u5: seq<bool>, L: Layout, modBin: string, d: nat)
    requires ValidRegs(ModulusRegs(L), |u3|) && Holds(u3, L.modulus, L.n, modBin)
    requires d < Pow2(L.n + 1) && Val(u3, L.b, L.n + 1) == d
    requires var u4 := Toggled(u3, modBin, L.modulus, true);
      Written(u4, u5, L.b, L.n + 1, Val(u4, L.modulus, L.n) + Val(u4, L.b, L.n + 1))
    ensures Val(u5, L.b, L.n + 1) == d && Zero(u5, L.modulus, L.n)
  {
    var u4 := Toggled(u3, modBin, L.modulus, true);
    ToggleOn(u3, modBin, L.modulus, L.n);
    ValZero(u4, L.modulus, L.n);
    ValUnchanged(u3, u4, L.b, L.n + 1);
    LowSmall(d, L.n + 1);
    ZeroKept(u4, u5, L.b, L.n + 1, L.modulus, L.n);
  }

  /** Clearing, adding and reloading the modulus register keeps every
      qubit outside b as the first stage left it. */
  lemma {:induction false} SetFrame(u0: seq<bool>, u3: seq<bool>, u5: seq<bool>, L: Layout, modBin: string)
    requires Kept(u0, u3, L) && Holds(u0, L.modulus, L.n, modBin)
    requires ValidRegs(ModulusRegs(L), |u3|) && Holds(u3, L.modulus, L.n, modBin) && Zero(u5, L.modulus, L.n)
    requires var u4 := Toggled(u3, modBin, L.modulus, true); SameOutside(u4, u5, L.b, L.n + 1)
    ensures var u6 := Toggled(u5, modBin, L.modulus, true);
      Kept(u0, u6, L) && Val(u6, L.b, L.n + 1) == Val(u5, L.b, L.n + 1)
  {
    ToggleOn(u3, modBin, L.modulus, L.n);
    var u6 := Toggled(u5, modBin, L.modulus, true);
    ToggleOn(u5, modBin, L.modulus, L.n);
    ValUnchanged(u5, u6, L.b, L.n + 1);
    assert forall q :: 0 <= q < |u3| && q != L.t && !(L.b <= q < L.b + L.n + 1) && !(L.modulus <= q < L.modulus + L.n) ==> u6[q] == u3[q];
    KeptReloaded(u0, u3, u6, L, modBin);
  }

  /** The second stage when t is clear (a + b < M): the loops do nothing and
      M is added back to b. */
  lemma {:induction false} CorrectWhenClear(u0: seq<bool>, u3: seq<bool>, u5: seq<bool>, L: Layout, modBin: string, x: nat, y: nat, m: nat)
    requires Ready(u0, L, modBin) && x == Val(u0, L.a, L.n) && y == Val(u0, L.b, L.n + 1) && m == RegisterValue(modBin)
    requires x + y < m && Rewritten(u0, u3, L, (x + y - m) % Pow2(L.n + 1), false)
    requires var u4 := Toggled(u3, modBin, L.modulus, false);
      Written(u4, u5, L.b, L.n + 1, Val(u4, L.modulus, L.n) + Val(u4, L.b, L.n + 1))
    ensures Rewritten(u0, Toggled(u5, modBin, L.modulus, u5[L.t]), L, (x + y) % m, false)
  {
    var d := (x + y - m) % Pow2(L.n + 1);
    ModulusBound(modBin, L.n);
    CorrectArith(x, y, m, L.n);
    ToggleOff(u3, modBin, L.modulus);
    KeptReady(u0, u3, L, modBin);
    HoldsValue(u3, L.modulus, L.n, modBin);
    WrittenVal(u3, u5, L.b, L.n + 1, m + d);
    KeptWritten(u0, u3, u5, L);
    assert u5[L.t] == u3[L.t];
    ToggleOff(u5, modBin, L.modulus);
  }

  /** What the second stage leaves in b is (x + y) mod M on both branches. */
  lemma {:induction false} CorrectArith(x: nat, y: nat, m: nat, n: nat)
    requires x < m && y < m && m <= Pow2(n)
    ensures var d := (x + y - m) % Pow2(n + 1);
      (x + y >= m ==> d == (x + y) % m) && (x + y < m ==> (m + d) % Pow2(n + 1) == (x + y) % m)
  {
    var h, p := Pow2(n), Pow2(n + 1);
    assert p == 2 * h;
    var d := (x + y - m) % p;
    CompareArith(x, y, m, h);
    if x + y >= m {
      ModUnique(x + y, m, 1, x + y - m);
    } else {
      ModUnique(x + y, m, 0, x + y);
    }
  }

  /** The second stage: clear the modulus register when t is set, add it, reload it. */
  /** After the controlled reload of the modulus register (on when t is set)
      and the addition of that register into b. */
  ghost predicate Corrected(u3: seq<bool>, u5: seq<bool>, L: Layout, modBin: string)
  {
    L.t < |u3| && L.modulus + L.n <= |u3| && L.b + L.n + 1 <= |u3| &&
    var u4 := Toggled(u3, modBin, L.modulus, u3[L.t]);
    Written(u4, u5, L.b, L.n + 1, Val(u4, L.modulus, L.n) + Val(u4, L.b, L.n + 1))
  }

  lemma {:induction false} CorrectStates(u0: seq<bool>, u3: seq<bool>, u5: seq<bool>, w: seq<bool>, L: Layout, modBin: string, x: nat, y: nat, m: nat)
    requires Ready(u0, L, modBin) && x == Val(u0, L.a, L.n) && y == Val(u0, L.b, L.n + 1) && m == RegisterValue(modBin)
    requires Rewritten(u0, u3, L, (x + y - m) % Pow2(L.n + 1), x + y >= m)
    requires Corrected(u3, u5, L, modBin) && w == Toggled(u5, modBin, L.modulus, u5[L.t])
    ensures Rewritten(u0, w, L, (x + y) % m, x + y >= m)
  {
    if x + y >= m {
      CorrectWhenSet(u0, u3, u5, L, modBin, x, y, m);
    } else {
      CorrectWhenClear(u0, u3, u5, L, modBin, x, y, m);
    }
  }

  /** What a write leaves in the register: the value modulo 2^len. */
  lemma {:induction false} WrittenVal(u: seq<bool>, w: seq<bool>, off: nat, len: nat, v: nat)
    requires Written(u, w, off, len, v)
    ensures Val(w, off, len) == v % Pow2(len)
  {
    LowMod(v, len);
  }

  /** Setting t changes neither a nor b. */
  lemma {:induction false} FlagKeepsVals(u: seq<bool>, L: Layout, z: bool)
    requires ValidRegs(AddendRegs(L), |u|) && L.t < |u| && Outside(L.t, L.a, L.n) && Outside(L.t, L.b, L.n + 1)
    ensures Val(u[L.t := z], L.a, L.n) == Val(u, L.a, L.n) && Val(u[L.t := z], L.b, L.n + 1) == Val(u, L.b, L.n + 1)
  {
    ValUpdate(u, L.t, z, L.b, L.n + 1);
    ValUpdate(u, L.t, z, L.a, L.n);
  }

  /** A value reduced modulo M fits in the n + 1 qubits of b. */
  lemma {:induction false} ModFits(v: nat, m: nat, n: nat)
    requires 0 < m <= Pow2(n)
    ensures v % m < Pow2(n + 1) && Low(v % m, n + 1) == v % m
  {
    assert Pow2(n + 1) == 2 * Pow2(n);
    LowSmall(v % m, n + 1);
  }

  /** The third stage, subtraction: b goes from r = (x + y) mod M to
      e = (r - x) mod 2^(n + 1), whose top bit is the flag. */
  lemma {:induction false} ClearSubtract(u6: seq<bool>, u7: seq<bool>, L: Layout, x: nat, y: nat, m: nat)
    requires ValidRegs(AddendRegs(L), |u6|)
    requires x < m && y < m && m <= Pow2(L.n)
    requires Val(u6, L.a, L.n) == x && Val(u6, L.b, L.n + 1) == (x + y) % m
    requires Written(u6, u7, L.b, L.n + 1, (Val(u6, L.b, L.n + 1) - Val(u6, L.a, L.n)) % Pow2(L.n + 1))
    ensures Val(u7, L.a, L.n) == x && Val(u7, L.b, L.n + 1) == ((x + y) % m - x) % Pow2(L.n + 1)
    ensures u7[L.b + L.n] <==> x + y >= m
  {
    var h, p := Pow2(L.n), Pow2(L.n + 1);
    assert p == 2 * h;
    var e := ((x + y) % m - x) % p;
    assert Val(u7, L.b, L.n + 1) == Low(e, L.n + 1);
    LowSmall(e, L.n + 1);
    UndoArith(x, y, m, h);
    TopBit(u7, L.b, L.n);
    ValUnchanged(u6, u7, L.a, L.n);
  }

  /** The third stage, addition: adding x back to e gives r again. */
  lemma {:induction false} ClearAdd(u8: seq<bool>, u9: seq<bool>, L: Layout, x: nat, y: nat, m: nat)
    requires ValidRegs(AddendRegs(L), |u8|)
    requires x < m && y < m && m <= Pow2(L.n)
    requires Val(u8, L.a, L.n) == x && Val(u8, L.b, L.n + 1) == ((x + y) % m - x) % Pow2(L.n + 1)
    requires Written(u8, u9, L.b, L.n + 1, Val(u8, L.a, L.n) + Val(u8, L.b, L.n + 1))
    ensures Val(u9, L.b, L.n + 1) == (x + y) % m
  {
    var h, p := Pow2(L.n), Pow2(L.n + 1);
    assert p == 2 * h;
    UndoArith(x, y, m, h);
    WrittenVal(u8, u9, L.b, L.n + 1, Val(u8, L.a, L.n) + Val(u8, L.b, L.n + 1));
  }

  /** The third stage on values: t returns to 0 and b to (x + y) mod M. */
  lemma {:induction false} ClearChain(u6: seq<bool>, u7: seq<bool>, u9: seq<bool>, L: Layout, x: nat, y: nat, m: nat)
    requires ValidRegs(AddendRegs(L), |u6|) && L.t < |u6| && Outside(L.t, L.a, L.n) && Outside(L.t, L.b, L.n + 1)
    requires x < m && y < m && m <= Pow2(L.n)
    requires Val(u6, L.a, L.n) == x && Val(u6, L.b, L.n + 1) == (x + y) % m && u6[L.t] == (x + y >= m)
    requires Written(u6, u7, L.b, L.n + 1, (Val(u6, L.b, L.n + 1) - Val(u6, L.a, L.n)) % Pow2(L.n + 1))
    requires var u8 := u7[L.t := u7[L.t] != u7[L.b + L.n]];
      Written(u8, u9, L.b, L.n + 1, Val(u8, L.a, L.n) + Val(u8, L.b, L.n + 1))
    ensures !(u7[L.t] != u7[L.b + L.n]) && Val(u9, L.b, L.n + 1) == (x + y) % m
  {
    var u8 := u7[L.t := u7[L.t] != u7[L.b + L.n]];
    ClearSubtract(u6, u7, L, x, y, m);
    assert u7[L.t] == u6[L.t];
    FlagKeepsVals(u7, L, u7[L.t] != u7[L.b + L.n]);
    ClearAdd(u8, u9, L, x, y, m);
  }

  /** The third stage: subtract a, copy b's top bit into t (clearing it),
      add a back. The result is u0 with (a + b) mod M written into b. */
  lemma {:induction false} ClearStates(u0: seq<bool>, u6: seq<bool>, u7: seq<bool>, u9: seq<bool>, L: Layout, modBin: string, x: nat, y: nat, m: nat)
    requires Ready(u0, L, modBin) && x == Val(u0, L.a, L.n) && y == Val(u0, L.b, L.n + 1) && m == RegisterValue(modBin)
    requires Rewritten(u0, u6, L, (x + y) % m, x + y >= m)
    requires Written(u6, u7, L.b, L.n + 1, (Val(u6, L.b, L.n + 1) - Val(u6, L.a, L.n)) % Pow2(L.n + 1))
    requires var u8 := u7[L.t := u7[L.t] != u7[L.b + L.n]];
      Written(u8, u9, L.b, L.n + 1, Val(u8, L.a, L.n) + Val(u8, L.b, L.n + 1))
    ensures Written(u0, u9, L.b, L.n + 1, (x + y) % m)
  {
    var u8 := u7[L.t := u7[L.t] != u7[L.b + L.n]];
    ModulusBound(modBin, L.n);
    ModFits(x + y, m, L.n);
    KeptReady(u0, u6, L, modBin);
    ClearChain(u6, u7, u9, L, x, y, m);
    KeptWritten(u0, u6, u7, L);
    KeptFlag(u0, u7, u7[L.t] != u7[L.b + L.n], L);
    KeptWritten(u0, u8, u9, L);
    KeptClear(u0, u9, L);
  }

  // ---------------------------------------------------------------- addmodN on gate lists

  /** adder(a, b), inverse adder(N, b), and the flag copy. */
  function CompareOnto(circuit: GateList, L: Layout): GateList
    requires L.n >= 1
  {
    FlagOnto(AdderOnto(AdderOnto(circuit, AddendRegs(L), false), ModulusRegs(L), true), L)
  }

  /** The controlled loading loop, adder(N, b), and the controlled loading loop again. */
  function CorrectOnto(flagged: GateList, L: Layout, modBin: string): GateList
    requires L.n >= 1
  {
    var cleared := ControlledLoadOnto(flagged, modBin, L.t, L.modulus, |modBin|);
    ControlledLoadOnto(AdderOnto(cleared, ModulusRegs(L), false), modBin, L.t, L.modulus, |modBin|)
  }

  /** Inverse adder(a, b), cx(b[-1], t), adder(a, b). */
  function ClearOnto(reloaded: GateList, L: Layout): GateList
    requires L.n >= 1
  {
    AdderOnto(Snoc(AdderOnto(reloaded, AddendRegs(L), true), CX(L.b + L.n, L.t)), AddendRegs(L), false)
  }

  lemma {:induction false} AddModNStages(circuit: GateList, L: Layout, modBin: string)
    requires L.n >= 1
    ensures AddModNOnto(circuit, L, modBin) == ClearOnto(CorrectOnto(CompareOnto(circuit, L), L, modBin), L)
  {
  }

  /** cx(c, t) on a basis state xors qubit c into qubit t. */
  lemma {:induction false} CXEffect(u: seq<bool>, c: nat, t: nat)
    requires c < |u| && t < |u| && c != t
    ensures Apply(CX(c, t), u) == u[t := u[t] != u[c]]
  {
    if !u[c] {
      assert u[t := u[t]] == u;
    }
  }

  /** x(b[-1]); cx(b[-1], t); x(b[-1]) xors the complement of b's top qubit into t. */
  lemma {:induction false} FlagEffect(circuit: GateList, s: seq<bool>, L: Layout)
    requires L.b + L.n < |s| && L.t < |s| && L.t != L.b + L.n
    ensures var u := Run(circuit, s);
      Run(FlagOnto(circuit, L), s) == u[L.t := u[L.t] != !u[L.b + L.n]]
  {
    var u := Run(circuit, s);
    var top := L.b + L.n;
    var v1 := u[top := !u[top]];
    CXEffect(v1, top, L.t);
    var v2 := v1[L.t := v1[L.t] != v1[top]];
    assert Run(Snoc(circuit, X(top)), s) == v1;
    assert Run(Snoc(Snoc(circuit, X(top)), CX(top, L.t)), s) == v2;
    assert v2[top := !v2[top]] == u[L.t := u[L.t] != !u[top]];
  }

  /** The loading loop changes nothing outside the modulus register. */
  lemma {:induction false} ToggledOutside(u: seq<bool>, modBin: string, reg: nat, n: nat, on: bool)
    requires |modBin| <= n
    ensures SameOutside(u, Toggled(u, modBin, reg, on), reg, n)
  {
  }

  /** adder(a, b) and its inverse, and adder(N, b) and its inverse, in the registers of a layout. */
  lemma {:induction false} AddendForward(circuit: GateList, s: seq<bool>, L: Layout)
    requires ValidRegs(AddendRegs(L), |s|) && Zero(Run(circuit, s), L.c, L.n)
    ensures var u := Run(circuit, s);
      Written(u, Run(AdderOnto(circuit, AddendRegs(L), false), s), L.b, L.n + 1, Val(u, L.a, L.n) + Val(u, L.b, L.n + 1))
  {
    AdderForward(circuit, s, AddendRegs(L));
  }

  lemma {:induction false} AddendInverse(circuit: GateList, s: seq<bool>, L: Layout)
    requires ValidRegs(AddendRegs(L), |s|) && Zero(Run(circuit, s), L.c, L.n)
    ensures var u := Run(circuit, s);
      Written(u, Run(AdderOnto(circuit, AddendRegs(L), true), s), L.b, L.n + 1, (Val(u, L.b, L.n + 1) - Val(u, L.a, L.n)) % Pow2(L.n + 1))
  {
    AdderInverse(circuit, s, AddendRegs(L));
  }

  lemma {:induction false} ModulusForward(circuit: GateList, s: seq<bool>, L: Layout)
    requires ValidRegs(ModulusRegs(L), |s|) && Zero(Run(circuit, s), L.c, L.n)
    ensures var u := Run(circuit, s);
      Written(u, Run(AdderOnto(circuit, ModulusRegs(L), false), s), L.b, L.n + 1, Val(u, L.modulus, L.n) + Val(u, L.b, L.n + 1))
  {
    AdderForward(circuit, s, ModulusRegs(L));
  }

  lemma {:induction false} ModulusInverse(circuit: GateList, s: seq<bool>, L: Layout)
    requires ValidRegs(ModulusRegs(L), |s|) && Zero(Run(circuit, s), L.c, L.n)
    ensures var u := Run(circuit, s);
      Written(u, Run(AdderOnto(circuit, ModulusRegs(L), true), s), L.b, L.n + 1, (Val(u, L.b, L.n + 1) - Val(u, L.modulus, L.n)) % Pow2(L.n + 1))
  {
    AdderInverse(circuit, s, ModulusRegs(L));
  }

  // ---------------------------------------------------------------- the three stages on gate lists

  /** The first stage's gates: two writes into b and the flag copy. */
  lemma {:induction false} CompareRuns(circuit: GateList, s: seq<bool>, L: Layout) returns (u1: seq<bool>, u2: seq<bool>)
    requires ValidLayout(L, |s|) && Zero(Run(circuit, s), L.c, L.n)
    ensures var u0 := Run(circuit, s);
      Written(u0, u1, L.b, L.n + 1, Val(u0, L.a, L.n) + Val(u0, L.b, L.n + 1))
    ensures Written(u1, u2, L.b, L.n + 1, (Val(u1, L.b, L.n + 1) - Val(u1, L.modulus, L.n)) % Pow2(L.n + 1))
    ensures |u2| == |s| && Run(CompareOnto(circuit, L), s) == u2[L.t := u2[L.t] != !u2[L.b + L.n]]
  {
    var added := AdderOnto(circuit, AddendRegs(L), false);
    AddendForward(circuit, s, L);
    u1 := Run(added, s);
    ZeroKept(Run(circuit, s), u1, L.b, L.n + 1, L.c, L.n);
    var reduced := AdderOnto(added, ModulusRegs(L), true);
    ModulusInverse(added, s, L);
    u2 := Run(reduced, s);
    FlagEffect(reduced, s, L);
  }

  /** The second stage's gates: the controlled loading loop, a write into b, the loop again. */
  lemma {:induction false} CorrectRuns(flagged: GateList, s: seq<bool>, L: Layout, modBin: string, u0: seq<bool>) returns (u5: seq<bool>)
    requires Ready(u0, L, modBin) && Kept(u0, Run(flagged, s), L)
    ensures Corrected(Run(flagged, s), u5, L, modBin)
    ensures Run(CorrectOnto(flagged, L, modBin), s) == Toggled(u5, modBin, L.modulus, u5[L.t])
  {
    var u3 := Run(flagged, s);
    KeptReady(u0, u3, L, modBin);
    var cleared := ControlledLoadOnto(flagged, modBin, L.t, L.modulus, |modBin|);
    var restored := AdderOnto(cleared, ModulusRegs(L), false);
    var u4 := Run(cleared, s);
    assert u4 == Toggled(u3, modBin, L.modulus, u3[L.t]) && Zero(u4, L.c, L.n) by {
      ControlledLoadToggles(flagged, s, modBin, L.t, L.modulus);
      ToggledOutside(u3, modBin, L.modulus, L.n, u3[L.t]);
      ZeroKept(u3, u4, L.modulus, L.n, L.c, L.n);
    }
    ModulusForward(cleared, s, L);
    u5 := Run(restored, s);
    CorrectedFrom(u3, u4, u5, L, modBin);
    ControlledLoadToggles(restored, s, modBin, L.t, L.modulus);
  }

  lemma {:induction false} CorrectedFrom(u3: seq<bool>, u4: seq<bool>, u5: seq<bool>, L: Layout, modBin: string)
    requires L.t < |u3| && L.modulus + L.n <= |u3| && L.b + L.n + 1 <= |u3|
    requires u4 == Toggled(u3, modBin, L.modulus, u3[L.t])
    requires Written(u4, u5, L.b, L.n + 1, Val(u4, L.modulus, L.n) + Val(u4, L.b, L.n + 1))
    ensures Corrected(u3, u5, L, modBin)
  {
  }

  /** cx(b[-1], t) followed by adder(a, b). */
  lemma {:induction false} FlipAddRuns(undone: GateList, s: seq<bool>, L: Layout)
    requires ValidLayout(L, |s|) && Zero(Run(undone, s), L.c, L.n)
    ensures var u7 := Run(undone, s);
      var u8 := u7[L.t := u7[L.t] != u7[L.b + L.n]];
      Written(u8, Run(AdderOnto(Snoc(undone, CX(L.b + L.n, L.t)), AddendRegs(L), false), s), L.b, L.n + 1,
              Val(u8, L.a, L.n) + Val(u8, L.b, L.n + 1))
  {
    var u7 := Run(undone, s);
    CXEffect(u7, L.b + L.n, L.t);
    assert Zero(u7[L.t := u7[L.t] != u7[L.b + L.n]], L.c, L.n);
    AddendForward(Snoc(undone, CX(L.b + L.n, L.t)), s, L);
  }

  /** The third stage's gates: a write into b, the flag copy, a write into b. */
  lemma {:induction false} ClearRuns(reloaded: GateList, s: seq<bool>, L: Layout) returns (u7: seq<bool>)
    requires ValidLayout(L, |s|) && Zero(Run(reloaded, s), L.c, L.n)
    ensures var u6 := Run(reloaded, s);
      Written(u6, u7, L.b, L.n + 1, (Val(u6, L.b, L.n + 1) - Val(u6, L.a, L.n)) % Pow2(L.n + 1))
    ensures var u8 := u7[L.t := u7[L.t] != u7[L.b + L.n]];
      Written(u8, Run(ClearOnto(reloaded, L), s), L.b, L.n + 1, Val(u8, L.a, L.n) + Val(u8, L.b, L.n + 1))
  {
    var undone := AdderOnto(reloaded, AddendRegs(L), true);
    AddendInverse(reloaded, s, L);
    u7 := Run(undone, s);
    ZeroKept(Run(reloaded, s), u7, L.b, L.n + 1, L.c, L.n);
    FlipAddRuns(undone, s, L);
    assert ClearOnto(reloaded, L) == AdderOnto(Snoc(undone, CX(L.b + L.n, L.t)), AddendRegs(L), false);
  }

  /** The first stage: b holds (a + b - M) mod 2^(n + 1), t whether a + b >= M. */
  lemma {:induction false} CompareStage(circuit: GateList, s: seq<bool>, L: Layout, modBin: string)
    requires Ready(Run(circuit, s), L, modBin)
    ensures var u0 := Run(circuit, s);
      var x, y, m := Val(u0, L.a, L.n), Val(u0, L.b, L.n + 1), RegisterValue(modBin);
      Rewritten(u0, Run(CompareOnto(circuit, L), s), L, (x + y - m) % Pow2(L.n + 1), x + y >= m)
  {
    var u0 := Run(circuit, s);
    var u1, u2 := CompareRuns(circuit, s, L);
    CompareStates(u0, u1, u2, Run(CompareOnto(circuit, L), s), L, modBin, Val(u0, L.a, L.n), Val(u0, L.b, L.n + 1), RegisterValue(modBin));
  }

  /** The second stage: b holds (a + b) mod M, t is unchanged. */
  lemma {:induction false} CorrectStage(flagged: GateList, s: seq<bool>, L: Layout, modBin: string, u0: seq<bool>, w: seq<bool>)
    requires Ready(u0, L, modBin) && w == Run(CorrectOnto(flagged, L, modBin), s)
    requires var x, y, m := Val(u0, L.a, L.n), Val(u0, L.b, L.n + 1), RegisterValue(modBin);
      Rewritten(u0, Run(flagged, s), L, (x + y - m) % Pow2(L.n + 1), x + y >= m)
    ensures var x, y, m := Val(u0, L.a, L.n), Val(u0, L.b, L.n + 1), RegisterValue(modBin);
      Rewritten(u0, w, L, (x + y) % m, x + y >= m)
  {
    var u5 := CorrectRuns(flagged, s, L, modBin, u0);
    CorrectStates(u0, Run(flagged, s), u5, w, L, modBin, Val(u0, L.a, L.n), Val(u0, L.b, L.n + 1), RegisterValue(modBin));
  }

  /** The third stage: t is 0 again and b still holds (a + b) mod M. */
  lemma {:induction false} ClearStage(reloaded: GateList, s: seq<bool>, L: Layout, modBin: string, u0: seq<bool>, w: seq<bool>)
    requires Ready(u0, L, modBin) && w == Run(ClearOnto(reloaded, L), s)
    requires var x, y, m := Val(u0, L.a, L.n), Val(u0, L.b, L.n + 1), RegisterValue(modBin);
      Rewritten(u0, Run(reloaded, s), L, (x + y) % m, x + y >= m)
    ensures var x, y, m := Val(u0, L.a, L.n), Val(u0, L.b, L.n + 1), RegisterValue(modBin);
      Written(u0, w, L.b, L.n + 1, (x + y) % m)
  {
    var u6 := Run(reloaded, s);
    KeptReady(u0, u6, L, modBin);
    var u7 := ClearRuns(reloaded, s, L);
    ClearStates(u0, u6, u7, w, L, modBin, Val(u0, L.a, L.n), Val(u0, L.b, L.n + 1), RegisterValue(modBin));
  }

  /** The second and third stages together: from the compared state, b ends
      holding (a + b) mod M with every other qubit, t included, as in u0. */
  lemma {:induction false} LaterStages(flagged: GateList, s: seq<bool>, L: Layout, modBin: string, u0: seq<bool>, w: seq<bool>)
    requires Ready(u0, L, modBin) && w == Run(ClearOnto(CorrectOnto(flagged, L, modBin), L), s)
    requires var x, y, m := Val(u0, L.a, L.n), Val(u0, L.b, L.n + 1), RegisterValue(modBin);
      Rewritten(u0, Run(flagged, s), L, (x + y - m) % Pow2(L.n + 1), x + y >= m)
    ensures Written(u0, w, L.b, L.n + 1, (Val(u0, L.a, L.n) + Val(u0, L.b, L.n + 1)) % RegisterValue(modBin))
  {
    var reloaded := CorrectOnto(flagged, L, modBin);
    CorrectStage(flagged, s, L, modBin, u0, Run(reloaded, s));
    ClearStage(reloaded, s, L, modBin, u0, w);
  }

  /** addmodN: on a state where the modulus register holds mod_bin, c and t
      are 0 and a, b < M, the circuit writes (a + b) mod M into b and leaves
      every other qubit as it was. */
  lemma {:induction false} AddModNCorrect(circuit: GateList, s: seq<bool>, L: Layout, modBin: string)
    requires Ready(Run(circuit, s), L, modBin)
    ensures var u0 := Run(circuit, s);
      Written(u0, Run(AddModNOnto(circuit, L, modBin), s), L.b, L.n + 1,
              (Val(u0, L.a, L.n) + Val(u0, L.b, L.n + 1)) % RegisterValue(modBin))
  {
    AddModNStages(circuit, L, modBin);
    CompareStage(circuit, s, L, modBin);
    LaterStages(CompareOnto(circuit, L), s, L, modBin, Run(circuit, s), Run(AddModNOnto(circuit, L, modBin), s));
  }

  // ---------------------------------------------------------------- the gates exist

  lemma {:induction false} ControlledLoadWellFormed(circuit: GateList, modBin: string, t: nat, reg: nat, k: nat, width: nat)
    requires AllWellFormed(circuit, width) && k <= |modBin| && reg + k <= width && t < width && Outside(t, reg, k)
    ensures AllWellFormed(ControlledLoadOnto(circuit, modBin, t, reg, k), width)
  {
    if k > 0 {
      ControlledLoadWellFormed(circuit, modBin, t, reg, k - 1, width);
    }
  }

  /** The flag gates x(b[-1]), cx(b[-1], t) and the final cx(b[-1], t) name
      two distinct existing qubits. */
  lemma {:induction false} FlagWellFormed(circuit: GateList, L: Layout, width: nat)
    requires AllWellFormed(circuit, width) && ValidLayout(L, width)
    ensures AllWellFormed(FlagOnto(circuit, L), width)
    ensures AllWellFormed(Snoc(circuit, CX(L.b + L.n, L.t)), width)
  {
  }

  /** The first half of addmodN: a + b - N, the flag, and the controlled
      clearing of N. */
  lemma {:induction false} SubtractHalfWellFormed(circuit: GateList, L: Layout, modBin: string, width: nat)
    requires AllWellFormed(circuit, width) && ValidLayout(L, width) && |modBin| <= L.n
    ensures var reduced := AdderOnto(AdderOnto(circuit, AddendRegs(L), false), ModulusRegs(L), true);
      AllWellFormed(ControlledLoadOnto(FlagOnto(reduced, L), modBin, L.t, L.modulus, |modBin|), width)
  {
    var added := AdderOnto(circuit, AddendRegs(L), false);
    AdderWellFormed(circuit, AddendRegs(L), false, width);
    var reduced := AdderOnto(added, ModulusRegs(L), true);
    AdderWellFormed(added, ModulusRegs(L), true, width);
    FlagWellFormed(reduced, L, width);
    ControlledLoadWellFormed(FlagOnto(reduced, L), modBin, L.t, L.modulus, |modBin|, width);
  }

  /** Every gate addmodN appends names existing, pairwise distinct qubits, so
      Qiskit accepts it and Apply never meets a gate it leaves alone. */
  lemma {:induction false} AddModNWellFormed(circuit: GateList, L: Layout, modBin: string, width: nat)
    requires AllWellFormed(circuit, width) && ValidLayout(L, width) && |modBin| <= L.n
    ensures AllWellFormed(AddModNOnto(circuit, L, modBin), width)
  {
    var cleared := ControlledLoadOnto(FlagOnto(AdderOnto(AdderOnto(circuit, AddendRegs(L), false), ModulusRegs(L), true), L),
                                      modBin, L.t, L.modulus, |modBin|);
    SubtractHalfWellFormed(circuit, L, modBin, width);
    var restored := AdderOnto(cleared, ModulusRegs(L), false);
    AdderWellFormed(cleared, ModulusRegs(L), false, width);
    var reloaded := ControlledLoadOnto(restored, modBin, L.t, L.modulus, |modBin|);
    ControlledLoadWellFormed(restored, modBin, L.t, L.modulus, |modBin|, width);
    var undone := AdderOnto(reloaded, AddendRegs(L), true);
    AdderWellFormed(reloaded, AddendRegs(L), true, width);
    FlagWellFormed(undone, L, width);
    AdderWellFormed(Snoc(undone, CX(L.b + L.n, L.t)), AddendRegs(L), false, width);
  }
}
