/** The reversible gates the arithmetic builders emit, their action on basis
    states, and a circuit object that collects gates the way a Qiskit
    QuantumCircuit does when `x`, `cx`, `ccx` and `swap` are called on it.
 */
module Circuits {

  datatype Gate =
    | X(target: nat)
    | CX(control: nat, target: nat)
    | CCX(control1: nat, control2: nat, target: nat)
    | Swap(left: nat, right: nat)

  /** The gates of a circuit in the order they were appended: `Snoc(init, g)`
      is the circuit `init` with `g` appended last. */
  datatype GateList = Empty | Snoc(init: GateList, last: Gate)

  /** Qiskit accepts a gate only when its qubits exist and are pairwise distinct. */
  predicate WellFormed(g: Gate, width: nat)
  {
    match g
    case X(t) => t < width
    case CX(c, t) => c < width && t < width && c != t
    case CCX(c1, c2, t) => c1 < width && c2 < width && t < width && c1 != c2 && c1 != t && c2 != t
    case Swap(p, q) => p < width && q < width && p != q
  }

  predicate AllWellFormed(gs: GateList, width: nat)
  {
    match gs
    case Empty => true
    case Snoc(init, g) => AllWellFormed(init, width) && WellFormed(g, width)
  }

  /** The permutation a gate performs on a basis state; a gate naming a qubit
      the state does not have leaves the state alone. */
  function Apply(g: Gate, s: seq<bool>): (s': seq<bool>)
    ensures |s'| == |s|
  {
    match g
    case X(t) => if t < |s| then s[t := !s[t]] else s
    case CX(c, t) => if c < |s| && t < |s| && s[c] then s[t := !s[t]] else s
    case CCX(c1, c2, t) =>
      if c1 < |s| && c2 < |s| && t < |s| && s[c1] && s[c2] then s[t := !s[t]] else s
    case Swap(p, q) => if p < |s| && q < |s| then s[p := s[q]][q := s[p]] else s
  }

  /** Runs the gates in order, first appended first. */
  function Run(gs: GateList, s: seq<bool>): (s': seq<bool>)
    ensures |s'| == |s|
  {
    match gs
    case Empty => s
    case Snoc(init, g) => Apply(g, Run(init, s))
  }

  /** The gates of x followed by those of y. */
  function Concat(x: GateList, y: GateList): GateList
  {
    match y
    case Empty => x
    case Snoc(init, g) => Snoc(Concat(x, init), g)
  }

  /** The same gates, last appended first. */
  function Reverse(gs: GateList): GateList
  {
    match gs
    case Empty => Empty
    case Snoc(init, g) => Concat(Snoc(Empty, g), Reverse(init))
  }

  lemma {:induction false} RunConcat(x: GateList, y: GateList, s: seq<bool>)
    ensures Run(Concat(x, y), s) == Run(y, Run(x, s))
  {
    match y
    case Empty =>
    case Snoc(init, g) => RunConcat(x, init, s);
  }

  lemma {:induction false} ConcatAssoc(x: GateList, y: GateList, z: GateList)
    ensures Concat(Concat(x, y), z) == Concat(x, Concat(y, z))
  {
    match z
    case Empty =>
    case Snoc(init, g) => ConcatAssoc(x, y, init);
  }

  lemma {:induction false} ConcatEmpty(x: GateList)
    ensures Concat(Empty, x) == x
  {
    match x
    case Empty =>
    case Snoc(init, g) => ConcatEmpty(init);
  }

  lemma {:induction false} ReverseConcat(x: GateList, y: GateList)
    ensures Reverse(Concat(x, y)) == Concat(Reverse(y), Reverse(x))
  {
    match y
    case Empty =>
      ConcatEmpty(Reverse(x));
    case Snoc(init, g) =>
      ReverseConcat(x, init);
      ConcatAssoc(Snoc(Empty, g), Reverse(init), Reverse(x));
  }

  /** Reversing twice gives back the circuit. */
  lemma {:induction false} ReverseReverse(gs: GateList)
    ensures Reverse(Reverse(gs)) == gs
  {
    match gs
    case Empty =>
    case Snoc(init, g) =>
      ReverseConcat(Snoc(Empty, g), Reverse(init));
      ReverseReverse(init);
      ConcatEmpty(init);
  }

  lemma {:induction false} ConcatWellFormed(x: GateList, y: GateList, width: nat)
    requires AllWellFormed(x, width) && AllWellFormed(y, width)
    ensures AllWellFormed(Concat(x, y), width)
  {
    match y
    case Empty =>
    case Snoc(init, g) => ConcatWellFormed(x, init, width);
  }

  lemma {:induction false} ReverseWellFormed(gs: GateList, width: nat)
    requires AllWellFormed(gs, width)
    ensures AllWellFormed(Reverse(gs), width)
  {
    match gs
    case Empty =>
    case Snoc(init, g) =>
      ReverseWellFormed(init, width);
      ConcatWellFormed(Snoc(Empty, g), Reverse(init), width);
  }

  /** Every well-formed gate is its own inverse. */
  lemma {:induction false} ApplyTwice(g: Gate, s: seq<bool>)
    requires WellFormed(g, |s|)
    ensures Apply(g, Apply(g, s)) == s
  {
  }

  /** Running the reversed gate list undoes a well-formed circuit on every basis state. */
  lemma {:induction false} RunReverse(gs: GateList, s: seq<bool>)
    requires AllWellFormed(gs, |s|)
    ensures Run(Reverse(gs), Run(gs, s)) == s
  {
    match gs
    case Empty =>
    case Snoc(init, g) =>
      var u := Run(init, s);
      RunConcat(Snoc(Empty, g), Reverse(init), Run(gs, s));
      ApplyTwice(g, u);
      RunReverse(init, s);
  }

  /** The in-place form of Apply on a bit array. */
  method ApplyInPlace(g: Gate, st: array<bool>)
    modifies st
    ensures st[..] == Apply(g, old(st[..]))
  {
    match g
    case X(t) =>
      if t < st.Length {
        st[t] := !st[t];
      }
    case CX(c, t) =>
      if c < st.Length && t < st.Length && st[c] {
        st[t] := !st[t];
      }
    case CCX(c1, c2, t) =>
      if c1 < st.Length && c2 < st.Length && t < st.Length && st[c1] && st[c2] {
        st[t] := !st[t];
      }
    case Swap(p, q) =>
      if p < st.Length && q < st.Length {
        var tmp := st[p];
        st[p] := st[q];
        st[q] := tmp;
      }
  }

  /** The gates of a list, first appended first, as a sequence. */
  function Gates(gs: GateList): (r: seq<Gate>)
  {
    match gs
    case Empty => []
    case Snoc(init, g) => Gates(init) + [g]
  }

  /** The list of the first k gates. */
  function Prefix(gs: GateList, k: nat): GateList
    requires k <= |Gates(gs)|
    decreases gs
  {
    match gs
    case Empty => Empty
    case Snoc(init, g) => if k == |Gates(gs)| then gs else Prefix(init, k)
  }

  lemma {:induction false} PrefixStep(gs: GateList, k: nat)
    requires k < |Gates(gs)|
    ensures Prefix(gs, k + 1) == Snoc(Prefix(gs, k), Gates(gs)[k])
  {
    match gs
    case Snoc(init, g) =>
      if k + 1 < |Gates(gs)| {
        PrefixStep(init, k);
        assert Gates(gs)[k] == Gates(init)[k];
      } else {
        assert Prefix(init, k) == init by {
          PrefixAll(init);
        }
      }
  }

  lemma {:induction false} PrefixZero(gs: GateList)
    ensures Prefix(gs, 0) == Empty
  {
    match gs
    case Empty =>
    case Snoc(init, g) =>
      PrefixZero(init);
  }

  lemma {:induction false} PrefixAll(gs: GateList)
    ensures Prefix(gs, |Gates(gs)|) == gs
  {
  }

  /** A circuit under construction: the gates appended to it so far. */
  class Circuit {
    var gates: GateList

    constructor ()
      ensures gates == Empty
    {
      gates := Empty;
    }

    method Append(g: Gate)
      modifies this
      ensures gates == Snoc(old(gates), g)
    {
      gates := Snoc(gates, g);
    }

    /** Executes the circuit on a basis state held in a bit array, gate by gate. */
    method Execute(st: array<bool>)
      modifies st
      ensures st[..] == Run(gates, old(st[..]))
    {
      var gs := Gates(gates);
      var i := 0;
      PrefixZero(gates);
      while i < |gs|
        invariant 0 <= i <= |gs|
        invariant st[..] == Run(Prefix(gates, i), old(st[..]))
      {
        PrefixStep(gates, i);
        ApplyInPlace(gs[i], st);
        i := i + 1;
      }
      PrefixAll(gates);
    }
  }
}
