/** Classical basis states of a qubit array and the unsigned values of registers.

    A basis state is a sequence of booleans indexed by qubit number. A register
    is a run of consecutive qubits given by its first index and its length; its
    first qubit is the least significant bit, as in Qiskit's little-endian
    convention.
 */
module Bits {

  function Pow2(k: nat): (r: nat)
    ensures r >= 1
  {
    if k == 0 then 1 else 2 * Pow2(k - 1)
  }

  lemma {:induction false} Pow2Add(i: nat, j: nat)
    ensures Pow2(i + j) == Pow2(i) * Pow2(j)
  {
    if j > 0 {
      Pow2Add(i, j - 1);
      assert Pow2(i + j) == 2 * Pow2(i + j - 1);
    }
  }

  lemma {:induction false} Pow2Monotone(i: nat, j: nat)
    requires i <= j
    ensures Pow2(i) <= Pow2(j)
  {
    if i < j {
      Pow2Monotone(i, j - 1);
    }
  }

  function B2N(b: bool): nat
  {
    if b then 1 else 0
  }

  /** The unsigned value of the register of `len` qubits starting at `off`. */
  function Val(s: seq<bool>, off: nat, len: nat): (v: nat)
    requires off + len <= |s|
    ensures v < Pow2(len)
    decreases len
  {
    if len == 0 then 0 else B2N(s[off]) + 2 * Val(s, off + 1, len - 1)
  }

  /** Every qubit outside [off, off + len) keeps its value. */
  ghost predicate SameOutside(s: seq<bool>, s': seq<bool>, off: nat, len: nat)
  {
    |s'| == |s| && forall q :: 0 <= q < |s| && !(off <= q < off + len) ==> s'[q] == s[q]
  }

  /** Every qubit of the register is 0. */
  ghost predicate Zero(s: seq<bool>, off: nat, len: nat)
  {
    forall q :: off <= q < off + len && q < |s| ==> !s[q]
  }

  /** Two registers whose qubits agree pointwise hold the same value. */
  lemma {:induction false} ValFrame(s: seq<bool>, s': seq<bool>, off: nat, off': nat, len: nat)
    requires off + len <= |s| && off' + len <= |s'|
    requires s[off..off + len] == s'[off'..off' + len]
    ensures Val(s, off, len) == Val(s', off', len)
    decreases len
  {
    if len > 0 {
      assert s[off] == s[off..off + len][0];
      assert s'[off'] == s'[off'..off' + len][0];
      assert s[off + 1..off + len] == s[off..off + len][1..];
      assert s'[off' + 1..off' + len] == s'[off'..off' + len][1..];
      ValFrame(s, s', off + 1, off' + 1, len - 1);
    }
  }

  /** A register is 0 exactly when it holds the value 0. */
  lemma {:induction false} ValZero(s: seq<bool>, off: nat, len: nat)
    requires off + len <= |s|
    ensures Val(s, off, len) == 0 <==> Zero(s, off, len)
    decreases len
  {
    if len > 0 {
      ValZero(s, off + 1, len - 1);
    }
  }

  /** The top qubit of a register is worth 2^len. */
  lemma {:induction false} ValTop(s: seq<bool>, off: nat, len: nat)
    requires off + len + 1 <= |s|
    ensures Val(s, off, len + 1) == Val(s, off, len) + B2N(s[off + len]) * Pow2(len)
    decreases len
  {
    if len > 0 {
      ValTop(s, off + 1, len - 1);
      assert off + 1 + (len - 1) == off + len;
    }
  }

  /** The top qubit of a register of len + 1 qubits is set exactly when its value reaches 2^len. */
  lemma {:induction false} TopBit(s: seq<bool>, off: nat, len: nat)
    requires off + len + 1 <= |s|
    ensures s[off + len] <==> Val(s, off, len + 1) >= Pow2(len)
  {
    ValTop(s, off, len);
  }

  /** A register's value determines each of its qubits. */
  lemma {:induction false} ValInjective(s: seq<bool>, s': seq<bool>, off: nat, len: nat)
    requires off + len <= |s| && off + len <= |s'|
    requires Val(s, off, len) == Val(s', off, len)
    ensures s[off..off + len] == s'[off..off + len]
    decreases len
  {
    if len > 0 {
      var v, v' := Val(s, off + 1, len - 1), Val(s', off + 1, len - 1);
      assert B2N(s[off]) + 2 * v == B2N(s'[off]) + 2 * v';
      assert s[off] == s'[off] && v == v';
      ValInjective(s, s', off + 1, len - 1);
      assert s[off..off + len] == [s[off]] + s[off + 1..off + len];
      assert s'[off..off + len] == [s'[off]] + s'[off + 1..off + len];
    }
  }

  lemma {:induction false} MulAtLeast(d: int, m: int)
    requires d >= 1 && m > 0
    ensures d * m >= m
  {
  }

  lemma {:induction false} ModUnique(x: int, m: int, q: int, r: int)
    requires m > 0 && 0 <= r < m && x == q * m + r
    ensures x % m == r && x / m == q
  {
    var q', r' := x / m, x % m;
    assert x == q' * m + r';
    assert (q - q') * m == r' - r;
    if q > q' {
      MulAtLeast(q - q', m);
    } else if q < q' {
      assert (q' - q) * m == r - r';
      MulAtLeast(q' - q, m);
    }
  }

  /** Dropping the least significant bit of a value reduced modulo 2p. */
  lemma {:induction false} ModDouble(bit: nat, x: nat, p: nat)
    requires bit < 2 && p >= 1
    ensures (bit + 2 * x) % (2 * p) == bit + 2 * (x % p)
  {
    var q, r := x / p, x % p;
    assert x == q * p + r;
    assert bit + 2 * x == q * (2 * p) + (bit + 2 * r);
    ModUnique(bit + 2 * x, 2 * p, q, bit + 2 * r);
  }

  /** The value of the len low bits of v, that is v modulo 2^len (LowMod). */
  function Low(v: nat, len: nat): (r: nat)
    ensures r < Pow2(len)
  {
    if len == 0 then 0 else v % 2 + 2 * Low(v / 2, len - 1)
  }

  lemma {:induction false} LowMod(v: nat, len: nat)
    ensures Low(v, len) == v % Pow2(len)
  {
    if len > 0 {
      LowMod(v / 2, len - 1);
      ModDouble(v % 2, v / 2, Pow2(len - 1));
    }
  }

  /** A value that fits in len bits is its own low part. */
  lemma {:induction false} LowSmall(v: nat, len: nat)
    requires v < Pow2(len)
    ensures Low(v, len) == v
  {
    LowMod(v, len);
    ModUnique(v, Pow2(len), 0, v);
  }

  /** The len low bits of v, least significant first. */
  function BitsOf(v: nat, len: nat): (r: seq<bool>)
    ensures |r| == len
  {
    if len == 0 then [] else [v % 2 == 1] + BitsOf(v / 2, len - 1)
  }

  lemma {:induction false} ValBitsOf(v: nat, len: nat)
    ensures Val(BitsOf(v, len), 0, len) == Low(v, len)
    decreases len
  {
    if len > 0 {
      var r := BitsOf(v, len);
      ValBitsOf(v / 2, len - 1);
      assert r[1..len] == BitsOf(v / 2, len - 1)[0..len - 1];
      ValFrame(r, BitsOf(v / 2, len - 1), 1, 0, len - 1);
    }
  }

  /** The state s with the register [off, off + len) overwritten by the low len bits of v. */
  ghost function WriteVal(s: seq<bool>, off: nat, len: nat, v: nat): (w: seq<bool>)
    requires off + len <= |s|
    ensures Written(s, w, off, len, v)
  {
    var w := s[..off] + BitsOf(v, len) + s[off + len..];
    ValBitsOf(v, len);
    assert w[off..off + len] == BitsOf(v, len)[0..len];
    ValFrame(w, BitsOf(v, len), off, 0, len);
    w
  }

  /** w is u with the register [off, off + len) holding v modulo 2^len and
      every other qubit as it was. This determines w (see WrittenUnique). */
  ghost predicate Written(u: seq<bool>, w: seq<bool>, off: nat, len: nat, v: nat)
  {
    off + len <= |u| && SameOutside(u, w, off, len) && Val(w, off, len) == Low(v, len)
  }

  /** Only one state is u with v written into a register. */
  lemma {:induction false} WrittenUnique(u: seq<bool>, w: seq<bool>, w': seq<bool>, off: nat, len: nat, v: nat)
    requires Written(u, w, off, len, v) && Written(u, w', off, len, v)
    ensures w == w'
  {
    ValInjective(w, w', off, len);
    forall q | 0 <= q < |w|
      ensures w[q] == w'[q]
    {
      if off <= q < off + len {
        assert w[q] == w[off..off + len][q - off];
        assert w'[q] == w'[off..off + len][q - off];
      }
    }
  }

  /** Writing a register's own value back leaves the state as it was. */
  lemma {:induction false} WrittenSelf(u: seq<bool>, w: seq<bool>, off: nat, len: nat)
    requires off + len <= |u|
    requires Written(u, w, off, len, Val(u, off, len))
    ensures w == u
  {
    LowSmall(Val(u, off, len), len);
    WrittenUnique(u, w, u, off, len, Val(u, off, len));
  }

  /** Registers whose qubits agree hold the same value. */
  lemma {:induction false} ValUnchanged(s: seq<bool>, s': seq<bool>, off: nat, len: nat)
    requires off + len <= |s| && off + len <= |s'|
    requires forall q :: off <= q < off + len ==> s[q] == s'[q]
    ensures Val(s, off, len) == Val(s', off, len)
    decreases len
  {
    if len > 0 {
      ValUnchanged(s, s', off + 1, len - 1);
    }
  }
}
