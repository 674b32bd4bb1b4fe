/**
 The binary quadratic model container that the embedding transforms build and
 read: the linear and quadratic bias dicts, the offset and the vartype, and the
 handful of dimod BinaryQuadraticModel operations that transforms.py calls
 (`empty`, `add_offset`, `add_variable`, `add_variables_from`,
 `add_interaction`, `add_interactions_from`, `energies`).
 */
module Bqm {
  import opened Results
  import opened Dicts

  /** The two domains a model's variables range over: {-1, +1} or {0, 1}. */
  datatype Vartype = Spin | Binary

  /** A binary quadratic model: E(x) = offset + sum a_v x_v + sum b_uv x_u x_v. */
  datatype BQM<V> = BQM(linear: Dict<V, real>, quadratic: Dict<(V, V), real>, offset: real, vartype: Vartype)

  /** dimod's invariant: one bias per variable, one bias per unordered pair,
      no self-loops, and every coupled variable has a linear entry. */
  predicate Valid<V(==)>(m: BQM<V>) {
    && IsDict(m.linear)
    && IsDict(m.quadratic)
    && forall i :: 0 <= i < |m.quadratic| ==> ValidPair(m, m.quadratic[i].0)
  }

  predicate ValidPair<V(==)>(m: BQM<V>, p: (V, V)) {
    && p.0 != p.1
    && p.0 in Keys(m.linear)
    && p.1 in Keys(m.linear)
    && (p.1, p.0) !in Keys(m.quadratic)
  }

  /** `source_bqm.empty(vartype)`. */
  function Empty<V>(vartype: Vartype): (m: BQM<V>)
    ensures m.vartype == vartype && m.offset == 0.0
    ensures |m.linear| == 0 && |m.quadratic| == 0
  {
    BQM([], [], 0.0, vartype)
  }

  /** The bias stored under `k`, zero when `k` is absent. */
  function Bias<K(==)>(d: Dict<K, real>, k: K): real {
    match Lookup(d, k)
    case Some(b) => b
    case None => 0.0
  }

  /** The coupling between `s` and `t` whichever orientation stores it. */
  function Coupling<V(==)>(q: Dict<(V, V), real>, s: V, t: V): real {
    Bias(q, (s, t)) + Bias(q, (t, s))
  }

  /** `d[k] += b`, creating the key with bias `b` when it is absent. */
  function AddTo<K(==)>(d: Dict<K, real>, k: K, b: real): Dict<K, real> {
    Put(d, k, Bias(d, k) + b)
  }

  /** sum of w(k) * d[k] over the entries of `d`. */
  function Weighted<K>(d: Dict<K, real>, w: K -> real): real {
    if |d| == 0 then 0.0 else d[0].1 * w(d[0].0) + Weighted(d[1..], w)
  }

  function One<K>(k: K): real {
    1.0
  }

  /** The sum of all biases in `d`. */
  function Total<K>(d: Dict<K, real>): real {
    Weighted(d, One)
  }

  function PairProduct<V>(x: V -> real): ((V, V)) -> real {
    (p: (V, V)) => x(p.0) * x(p.1)
  }

  /** `bqm.energy(x)`: the model's value at the assignment `x`. */
  function Energy<V>(m: BQM<V>, x: V -> real): real {
    m.offset + Weighted(m.linear, x) + Weighted(m.quadratic, PairProduct(x))
  }

  /** `add_offset(b)`. */
  function AddOffset<V>(m: BQM<V>, b: real): (r: BQM<V>)
    ensures r.offset == m.offset + b
    ensures r.linear == m.linear && r.quadratic == m.quadratic && r.vartype == m.vartype
  {
    m.(offset := m.offset + b)
  }

  /** `add_variable(v, b)`: v's linear bias grows by b (created if absent). */
  function AddVariable<V(==)>(m: BQM<V>, v: V, b: real): (r: BQM<V>)
    ensures r.quadratic == m.quadratic && r.offset == m.offset && r.vartype == m.vartype
  {
    m.(linear := AddTo(m.linear, v, b))
  }

  /** `add_variables_from({u: b for u in vs})`. */
  function AddVariables<V(==)>(m: BQM<V>, vs: seq<V>, b: real): (r: BQM<V>)
    ensures r.quadratic == m.quadratic && r.offset == m.offset && r.vartype == m.vartype
    decreases |vs|
  {
    if |vs| == 0 then m else AddVariables(AddVariable(m, vs[0], b), vs[1..], b)
  }

  /** The body of `add_interaction` once its bias is in the model's own
      vartype: both ends get a linear entry (zero if new), then the bias is
      added under whichever orientation is already stored, else as (u, v). */
  function AddCoupling<V(==)>(m: BQM<V>, u: V, v: V, b: real): (r: BQM<V>)
    ensures r.offset == m.offset && r.vartype == m.vartype
  {
    var withEnds := AddVariable(AddVariable(m, u, 0.0), v, 0.0);
    var key := if (v, u) in Keys(m.quadratic) then (v, u) else (u, v);
    withEnds.(quadratic := AddTo(m.quadratic, key, b))
  }

  /** A sample value read as a spin: itself in a SPIN model, 2a - 1 in a BINARY one. */
  function SpinOf(vt: Vartype, a: real): real {
    if vt == Spin then a else 2.0 * a - 1.0
  }

  /** `add_interaction(u, v, bias, vartype)`: a bias given in `vt` is
      converted into the model's vartype first. */
  function AddInteraction<V(==)>(m: BQM<V>, u: V, v: V, bias: real, vt: Vartype): (r: BQM<V>)
    requires u != v
    ensures r.vartype == m.vartype
  {
    if vt == m.vartype then AddCoupling(m, u, v, bias)
    else if m.vartype == Spin then
      var b := bias / 4.0;
      AddCoupling(AddVariable(AddVariable(AddOffset(m, b), u, b), v, b), u, v, b)
    else
      AddCoupling(AddVariable(AddVariable(AddOffset(m, bias), u, -2.0 * bias), v, -2.0 * bias), u, v, 4.0 * bias)
  }

  /** `add_interactions_from((u, v, b) for u, v in pairs)`, biases in the model's vartype. */
  function AddInteractions<V(==)>(m: BQM<V>, pairs: seq<(V, V)>, b: real): (r: BQM<V>)
    requires forall i :: 0 <= i < |pairs| ==> pairs[i].0 != pairs[i].1
    ensures r.offset == m.offset && r.vartype == m.vartype
    decreases |pairs|
  {
    if |pairs| == 0 then m
    else AddInteractions(AddCoupling(m, pairs[0].0, pairs[0].1, b), pairs[1..], b)
  }

  /** `add_interactions_from(q, vartype=vt)`. */
  function AddInteractionsFrom<V(==)>(m: BQM<V>, q: Dict<(V, V), real>, vt: Vartype): (r: BQM<V>)
    requires forall i :: 0 <= i < |q| ==> q[i].0.0 != q[i].0.1
    ensures r.vartype == m.vartype
    decreases |q|
  {
    if |q| == 0 then m
    else AddInteractionsFrom(AddInteraction(m, q[0].0.0, q[0].0.1, q[0].1, vt), q[1..], vt)
  }
}
