/**
 What the dimod operations in module Bqm do to a model's biases, totals and
 energy, and that they keep dimod's invariant.
 */
module BqmFacts {
  import opened Results
  import opened Dicts
  import opened Bqm

  /** `d[k] += b` raises the weighted sum by b * w(k), whatever the weights. */
  lemma {:induction false} WeightedAddTo<K>(d: Dict<K, real>, k: K, b: real, w: K -> real)
    ensures Weighted(AddTo(d, k, b), w) == Weighted(d, w) + b * w(k)
  {
    var r := AddTo(d, k, b);
    if |d| == 0 {
      assert r == [(k, b)];
    } else if d[0].0 == k {
      assert r == [(k, d[0].1 + b)] + d[1..];
      assert r[0] == (k, d[0].1 + b) && r[1..] == d[1..];
      var c := w(k);
      calc {
        Weighted(r, w);
        (d[0].1 + b) * c + Weighted(d[1..], w);
        { MulDistributes(d[0].1, b, c); }
        d[0].1 * c + b * c + Weighted(d[1..], w);
      }
    } else {
      PastHead(d, k, Bias(d, k) + b);
      var rest := AddTo(d[1..], k, b);
      assert r == [d[0]] + rest;
      assert r[0] == d[0] && r[1..] == rest;
      WeightedAddTo(d[1..], k, b, w);
    }
  }

  lemma MulDistributes(a: real, b: real, c: real)
    ensures (a + b) * c == a * c + b * c
  {
  }

  /** `d[k] += b` changes the bias of k and of no other key. */
  lemma BiasAddTo<K>(d: Dict<K, real>, k: K, b: real, k': K)
    ensures Bias(AddTo(d, k, b), k') == Bias(d, k') + (if k' == k then b else 0.0)
  {
    LookupPut(d, k, Bias(d, k) + b, k');
  }

  /** add_variable changes the bias of its own variable only. */
  lemma BiasAddVariable<V>(m: BQM<V>, v: V, b: real, n: V)
    ensures Bias(AddVariable(m, v, b).linear, n) == Bias(m.linear, n) + (if n == v then b else 0.0)
  {
    BiasAddTo(m.linear, v, b, n);
  }

  /** The coupling step of add_interaction leaves every linear bias as it was. */
  lemma BiasAddCoupling<V>(m: BQM<V>, u: V, v: V, b: real, n: V)
    ensures Bias(AddCoupling(m, u, v, b).linear, n) == Bias(m.linear, n)
  {
    BiasAddVariable(m, u, 0.0, n);
    BiasAddVariable(AddVariable(m, u, 0.0), v, 0.0, n);
  }

  lemma KeysAddTo<K>(d: Dict<K, real>, k: K, b: real)
    ensures Keys(AddTo(d, k, b)) == if k in Keys(d) then Keys(d) else Keys(d) + [k]
  {
    PutKeys(d, k, Bias(d, k) + b);
  }

  lemma AddToKeepsDict<K>(d: Dict<K, real>, k: K, b: real)
    requires IsDict(d)
    ensures IsDict(AddTo(d, k, b))
  {
    PutKeepsDict(d, k, Bias(d, k) + b);
  }

  /** add_variable adds b * x(v) to the energy. */
  lemma EnergyAddVariable<V>(m: BQM<V>, v: V, b: real, x: V -> real)
    ensures Energy(AddVariable(m, v, b), x) == Energy(m, x) + b * x(v)
  {
    WeightedAddTo(m.linear, v, b, x);
  }

  /** An added coupling contributes b * x(u) * x(v) to the energy. */
  lemma EnergyAddCoupling<V>(m: BQM<V>, u: V, v: V, b: real, x: V -> real)
    ensures Energy(AddCoupling(m, u, v, b), x) == Energy(m, x) + b * (x(u) * x(v))
  {
    var key := if (v, u) in Keys(m.quadratic) then (v, u) else (u, v);
    var l1 := AddTo(m.linear, u, 0.0);
    WeightedAddTo(m.linear, u, 0.0, x);
    WeightedAddTo(l1, v, 0.0, x);
    QuadraticAddTo(m.quadratic, u, v, b, x, key);
    EnergyOfParts(m, AddCoupling(m, u, v, b), x, 0.0, b * (x(u) * x(v)), 0.0);
  }

  /** The energy of a model whose offset, linear sum and quadratic sum each moved by a known amount. */
  lemma EnergyOfParts<V>(m: BQM<V>, r: BQM<V>, x: V -> real, dl: real, dq: real, doff: real)
    requires r.offset == m.offset + doff
    requires Weighted(r.linear, x) == Weighted(m.linear, x) + dl
    requires Weighted(r.quadratic, PairProduct(x)) == Weighted(m.quadratic, PairProduct(x)) + dq
    ensures Energy(r, x) == Energy(m, x) + doff + dl + dq
  {
  }

  lemma QuadraticAddTo<V>(q: Dict<(V, V), real>, u: V, v: V, b: real, x: V -> real, key: (V, V))
    requires key == (u, v) || key == (v, u)
    ensures Weighted(AddTo(q, key, b), PairProduct(x)) == Weighted(q, PairProduct(x)) + b * (x(u) * x(v))
  {
    WeightedAddTo(q, key, b, PairProduct(x));
    assert PairProduct(x)(key) == x(u) * x(v);
  }

  /** The coupling between u and v grows by b; every other pair keeps its coupling. */
  lemma CouplingAddCoupling<V>(m: BQM<V>, u: V, v: V, b: real, s: V, t: V)
    requires u != v
    ensures Coupling(AddCoupling(m, u, v, b).quadratic, s, t)
         == Coupling(m.quadratic, s, t) + (if (s, t) == (u, v) || (s, t) == (v, u) then b else 0.0)
  {
    var key := if (v, u) in Keys(m.quadratic) then (v, u) else (u, v);
    BiasAddTo(m.quadratic, key, b, (s, t));
    BiasAddTo(m.quadratic, key, b, (t, s));
  }

  /** add_interaction with a SPIN bias J adds J * s_u * s_v to the energy,
      where s is the spin value of the sample: the vartype conversion keeps
      the meaning of the bias. */
  lemma EnergyAddSpinInteraction<V>(m: BQM<V>, u: V, v: V, bias: real, x: V -> real)
    requires u != v
    ensures Energy(AddInteraction(m, u, v, bias, Spin), x)
         == Energy(m, x) + bias * (SpinOf(m.vartype, x(u)) * SpinOf(m.vartype, x(v)))
  {
    if m.vartype == Spin {
      EnergySpinIntoSpin(m, u, v, bias, x);
      SpinFactors(Energy(AddInteraction(m, u, v, bias, Spin), x), Energy(m, x), m, x, u, v, bias);
    } else {
      EnergySpinIntoBinary(m, u, v, bias, x);
    }
  }

  lemma EnergySpinIntoSpin<V>(m: BQM<V>, u: V, v: V, bias: real, x: V -> real)
    requires u != v && m.vartype == Spin
    ensures Energy(AddInteraction(m, u, v, bias, Spin), x) == Energy(m, x) + bias * (x(u) * x(v))
  {
    EnergyAddCoupling(m, u, v, bias, x);
  }

  lemma SpinFactors<V>(total: real, e: real, m: BQM<V>, x: V -> real, u: V, v: V, bias: real)
    requires m.vartype == Spin && total == e + bias * (x(u) * x(v))
    ensures total == e + bias * (SpinOf(m.vartype, x(u)) * SpinOf(m.vartype, x(v)))
  {
  }

  /** The converted form of add_interaction: an offset, two linear biases and a coupling. */
  lemma EnergyConverted<V>(m: BQM<V>, u: V, v: V, off: real, lu: real, lv: real, q: real, x: V -> real)
    ensures Energy(AddCoupling(AddVariable(AddVariable(AddOffset(m, off), u, lu), v, lv), u, v, q), x)
         == Energy(m, x) + off + lu * x(u) + lv * x(v) + q * (x(u) * x(v))
  {
    var m0 := AddOffset(m, off);
    var m1 := AddVariable(m0, u, lu);
    var m2 := AddVariable(m1, v, lv);
    EnergyAddVariable(m0, u, lu, x);
    EnergyAddVariable(m1, v, lv, x);
    EnergyAddCoupling(m2, u, v, q, x);
  }

  /** A SPIN bias J on a BINARY model: J on the offset, -2J on both
      variables, 4J on the coupling, which is J times the product of the
      ends' spin values 2x - 1. */
  lemma EnergySpinIntoBinary<V>(m: BQM<V>, u: V, v: V, bias: real, x: V -> real)
    requires u != v && m.vartype == Binary
    ensures Energy(AddInteraction(m, u, v, bias, Spin), x)
         == Energy(m, x) + bias * (SpinOf(m.vartype, x(u)) * SpinOf(m.vartype, x(v)))
  {
    var c := -2.0 * bias;
    var b4 := 4.0 * bias;
    var r := AddCoupling(AddVariable(AddVariable(AddOffset(m, bias), u, c), v, c), u, v, b4);
    UnfoldSpinIntoBinary(m, u, v, bias, c, b4);
    EnergyConverted(m, u, v, bias, c, c, b4, x);
    SpinAsBinary(Energy(r, x), Energy(m, x), m, x, u, v, bias, c, b4);
  }

  lemma UnfoldSpinIntoBinary<V>(m: BQM<V>, u: V, v: V, bias: real, c: real, b4: real)
    requires u != v && m.vartype == Binary
    requires c == -2.0 * bias && b4 == 4.0 * bias
    ensures AddInteraction(m, u, v, bias, Spin)
         == AddCoupling(AddVariable(AddVariable(AddOffset(m, bias), u, c), v, c), u, v, b4)
  {
  }

  /** The arithmetic of the conversion: J - 2J x_u - 2J x_v + 4J x_u x_v
      is J (2 x_u - 1)(2 x_v - 1). */
  lemma SpinAsBinary<V>(total: real, e: real, m: BQM<V>, x: V -> real, u: V, v: V, bias: real, c: real, b4: real)
    requires m.vartype == Binary && c == -2.0 * bias && b4 == 4.0 * bias
    requires total == e + bias + c * x(u) + c * x(v) + b4 * (x(u) * x(v))
    ensures total == e + bias * (SpinOf(m.vartype, x(u)) * SpinOf(m.vartype, x(v)))
  {
  }

  /** Adding a zero bias to a variable the model has leaves the model as it is. */
  lemma AddZeroPresent<V>(m: BQM<V>, v: V)
    requires v in Keys(m.linear)
    ensures AddVariable(m, v, 0.0) == m
  {
    LookupHit(m.linear, v);
    PutSame(m.linear, v, Bias(m.linear, v));
  }

  /** A bias on a key the dict lacks becomes a new last entry. */
  lemma AddToAbsent<K>(d: Dict<K, real>, k: K, b: real)
    requires k !in Keys(d)
    ensures AddTo(d, k, b) == d + [(k, b)]
  {
    LookupHit(d, k);
    PutAbsent(d, k, 0.0 + b);
  }

  /** A coupling between two present variables that no orientation stores
      yet is appended as (u, v) and touches nothing else. */
  lemma AddNewCoupling<V>(m: BQM<V>, u: V, v: V, b: real)
    requires u in Keys(m.linear) && v in Keys(m.linear)
    requires (u, v) !in Keys(m.quadratic) && (v, u) !in Keys(m.quadratic)
    ensures AddCoupling(m, u, v, b) == m.(quadratic := m.quadratic + [((u, v), b)])
  {
    AddZeroPresent(m, u);
    AddZeroPresent(m, v);
    AddToAbsent(m.quadratic, (u, v), b);
  }

  /** `add_interactions_from` with one fresh pair appends it. */
  lemma AddOneInteraction<V>(m: BQM<V>, u: V, v: V, b: real)
    requires u != v && u in Keys(m.linear) && v in Keys(m.linear)
    requires (u, v) !in Keys(m.quadratic) && (v, u) !in Keys(m.quadratic)
    ensures AddInteractions(m, [(u, v)], b) == m.(quadratic := m.quadratic + [((u, v), b)])
  {
    AddNewCoupling(m, u, v, b);
    assert [(u, v)][1..] == [];
  }

  /** add_variable keeps dimod's invariant. */
  lemma ValidAddVariable<V>(m: BQM<V>, v: V, b: real)
    requires Valid(m)
    ensures Valid(AddVariable(m, v, b))
  {
    AddToKeepsDict(m.linear, v, b);
    KeysAddTo(m.linear, v, b);
    var r := AddVariable(m, v, b);
    forall i | 0 <= i < |r.quadratic|
      ensures ValidPair(r, r.quadratic[i].0)
    {
      assert ValidPair(m, m.quadratic[i].0);
    }
  }

  /** add_interaction's coupling step keeps dimod's invariant. */
  lemma ValidAddCoupling<V>(m: BQM<V>, u: V, v: V, b: real)
    requires Valid(m) && u != v
    ensures Valid(AddCoupling(m, u, v, b))
  {
    var m1 := AddVariable(m, u, 0.0);
    ValidAddVariable(m, u, 0.0);
    KeysAddTo(m.linear, u, 0.0);
    var m2 := AddVariable(m1, v, 0.0);
    ValidAddVariable(m1, v, 0.0);
    KeysAddTo(m1.linear, v, 0.0);
    var key := if (v, u) in Keys(m.quadratic) then (v, u) else (u, v);
    var q := AddTo(m.quadratic, key, b);
    assert AddCoupling(m, u, v, b) == m2.(quadratic := q);
    AddToKeepsDict(m.quadratic, key, b);
    KeysAddTo(m.quadratic, key, b);
    ValidNewCoupling(m2, u, v, key, q);
  }

  lemma ValidNewCoupling<V>(m: BQM<V>, u: V, v: V, key: (V, V), q: Dict<(V, V), real>)
    requires Valid(m) && u != v
    requires u in Keys(m.linear) && v in Keys(m.linear)
    requires key == if (v, u) in Keys(m.quadratic) then (v, u) else (u, v)
    requires IsDict(q)
    requires Keys(q) == if key in Keys(m.quadratic) then Keys(m.quadratic) else Keys(m.quadratic) + [key]
    ensures Valid(m.(quadratic := q))
  {
    var r := m.(quadratic := q);
    forall i | 0 <= i < |q|
      ensures ValidPair(r, q[i].0)
    {
      var p := q[i].0;
      assert p == Keys(q)[i];
      if i < |m.quadratic| {
        assert p == m.quadratic[i].0;
        assert ValidPair(m, p);
        if key !in Keys(m.quadratic) {
          assert (p.1, p.0) != (u, v);
        }
      } else {
        assert p == (u, v);
      }
    }
  }
  /** p is the pair {s, t}, in either orientation. */
  predicate Joins<V(==)>(p: (V, V), s: V, t: V) {
    p == (s, t) || p == (t, s)
  }

  /** n is one of the ends of p. */
  predicate Touches<V(==)>(p: (V, V), n: V) {
    p.0 == n || p.1 == n
  }

  /** add_interaction(u, v, J, vartype=SPIN), bias by bias: in a SPIN model
      only the coupling of {u, v} grows by J; in a BINARY model the offset
      grows by J, each end's linear bias by -2J and the coupling by 4J. */
  lemma SpinInteractionBiases<V>(m: BQM<V>, u: V, v: V, bias: real, s: V, t: V, n: V)
    requires u != v
    ensures var r := AddInteraction(m, u, v, bias, Spin);
      && r.offset == m.offset + (if m.vartype == Spin then 0.0 else bias)
      && Bias(r.linear, n) == Bias(m.linear, n) + (if m.vartype == Binary && Touches((u, v), n) then -2.0 * bias else 0.0)
      && Coupling(r.quadratic, s, t)
         == Coupling(m.quadratic, s, t) + (if !Joins((u, v), s, t) then 0.0 else if m.vartype == Spin then bias else 4.0 * bias)
  {
    if m.vartype == Spin {
      BiasAddCoupling(m, u, v, bias, n);
      CouplingAddCoupling(m, u, v, bias, s, t);
    } else {
      var c := -2.0 * bias;
      var b4 := 4.0 * bias;
      var m0 := AddOffset(m, bias);
      var m1 := AddVariable(m0, u, c);
      var m2 := AddVariable(m1, v, c);
      UnfoldSpinIntoBinary(m, u, v, bias, c, b4);
      BiasAddVariable(m0, u, c, n);
      BiasAddVariable(m1, v, c, n);
      BiasAddCoupling(m2, u, v, b4, n);
      CouplingAddCoupling(m2, u, v, b4, s, t);
    }
  }

  /** add_interaction keeps dimod's invariant, whichever vartype the bias is given in. */
  lemma ValidAddInteraction<V>(m: BQM<V>, u: V, v: V, bias: real, vt: Vartype)
    requires Valid(m) && u != v
    ensures Valid(AddInteraction(m, u, v, bias, vt))
  {
    if vt == m.vartype {
      ValidAddCoupling(m, u, v, bias);
    } else if m.vartype == Spin {
      var b := bias / 4.0;
      assert AddInteraction(m, u, v, bias, vt) == AddCoupling(AddVariable(AddVariable(AddOffset(m, b), u, b), v, b), u, v, b);
      ValidConverted(m, u, v, b, b, b);
    } else {
      var b1, b2 := -2.0 * bias, 4.0 * bias;
      assert AddInteraction(m, u, v, bias, vt) == AddCoupling(AddVariable(AddVariable(AddOffset(m, bias), u, b1), v, b1), u, v, b2);
      ValidConverted(m, u, v, bias, b1, b2);
    }
  }

  /** The converted add_interaction: offset, both ends, then the coupling. */
  lemma ValidConverted<V>(m: BQM<V>, u: V, v: V, b0: real, b1: real, b2: real)
    requires Valid(m) && u != v
    ensures Valid(AddCoupling(AddVariable(AddVariable(AddOffset(m, b0), u, b1), v, b1), u, v, b2))
  {
    var m0 := AddOffset(m, b0);
    var m1 := AddVariable(m0, u, b1);
    ValidAddVariable(m0, u, b1);
    var m2 := AddVariable(m1, v, b1);
    ValidAddVariable(m1, v, b1);
    ValidAddCoupling(m2, u, v, b2);
  }

  lemma {:induction false} ValidAddVariables<V>(m: BQM<V>, vs: seq<V>, b: real)
    requires Valid(m)
    ensures Valid(AddVariables(m, vs, b))
    decreases |vs|
  {
    if |vs| > 0 {
      ValidAddVariable(m, vs[0], b);
      ValidAddVariables(AddVariable(m, vs[0], b), vs[1..], b);
    }
  }

  lemma {:induction false} ValidAddInteractions<V>(m: BQM<V>, pairs: seq<(V, V)>, b: real)
    requires Valid(m)
    requires forall i :: 0 <= i < |pairs| ==> pairs[i].0 != pairs[i].1
    ensures Valid(AddInteractions(m, pairs, b))
    decreases |pairs|
  {
    if |pairs| > 0 {
      ValidAddCoupling(m, pairs[0].0, pairs[0].1, b);
      ValidAddInteractions(AddCoupling(m, pairs[0].0, pairs[0].1, b), pairs[1..], b);
    }
  }

  lemma {:induction false} ValidAddInteractionsFrom<V>(m: BQM<V>, q: Dict<(V, V), real>, vt: Vartype)
    requires Valid(m)
    requires forall i :: 0 <= i < |q| ==> q[i].0.0 != q[i].0.1
    ensures Valid(AddInteractionsFrom(m, q, vt))
    decreases |q|
  {
    if |q| > 0 {
      ValidAddInteraction(m, q[0].0.0, q[0].0.1, q[0].1, vt);
      ValidAddInteractionsFrom(AddInteraction(m, q[0].0.0, q[0].0.1, q[0].1, vt), q[1..], vt);
    }
  }

  // ---------------------------------------------------------------- which variables a model holds

  /** add_variable creates v and keeps every variable already there. */
  lemma HasAddVariable<V>(m: BQM<V>, v: V, b: real, n: V)
    ensures n in Keys(AddVariable(m, v, b).linear) <==> n in Keys(m.linear) || n == v
  {
    KeysAddTo(m.linear, v, b);
  }

  /** add_variables_from holds exactly the old variables and the new ones. */
  lemma {:induction false} HasAddVariables<V>(m: BQM<V>, vs: seq<V>, b: real, n: V)
    ensures n in Keys(AddVariables(m, vs, b).linear) <==> n in Keys(m.linear) || n in vs
    decreases |vs|
  {
    if |vs| > 0 {
      HasAddVariable(m, vs[0], b, n);
      HasAddVariables(AddVariable(m, vs[0], b), vs[1..], b, n);
      assert n in vs <==> n == vs[0] || n in vs[1..];
    }
  }

  /** add_interaction holds exactly the old variables and the two ends. */
  lemma HasAddCoupling<V>(m: BQM<V>, u: V, v: V, b: real, n: V)
    ensures n in Keys(AddCoupling(m, u, v, b).linear) <==> n in Keys(m.linear) || n == u || n == v
  {
    HasAddVariable(m, u, 0.0, n);
    HasAddVariable(AddVariable(m, u, 0.0), v, 0.0, n);
  }

  /** The same, whichever vartype the bias is given in. */
  lemma HasAddInteraction<V>(m: BQM<V>, u: V, v: V, bias: real, vt: Vartype, n: V)
    requires u != v
    ensures n in Keys(AddInteraction(m, u, v, bias, vt).linear) <==> n in Keys(m.linear) || n == u || n == v
  {
    if vt == m.vartype {
      HasAddCoupling(m, u, v, bias, n);
    } else if m.vartype == Spin {
      HasConverted(m, u, v, bias / 4.0, bias / 4.0, bias / 4.0, n);
    } else {
      HasConverted(m, u, v, bias, -2.0 * bias, 4.0 * bias, n);
    }
  }

  lemma HasConverted<V>(m: BQM<V>, u: V, v: V, b0: real, b1: real, b2: real, n: V)
    ensures n in Keys(AddCoupling(AddVariable(AddVariable(AddOffset(m, b0), u, b1), v, b1), u, v, b2).linear) <==>
      n in Keys(m.linear) || n == u || n == v
  {
    var m0 := AddOffset(m, b0);
    var m1 := AddVariable(m0, u, b1);
    HasAddVariable(m0, u, b1, n);
    var m2 := AddVariable(m1, v, b1);
    HasAddVariable(m1, v, b1, n);
    HasAddCoupling(m2, u, v, b2, n);
  }

  /** add_interactions_from over pairs holds exactly the old variables and
      the ends of every pair. */
  lemma {:induction false} HasAddInteractions<V>(m: BQM<V>, pairs: seq<(V, V)>, b: real, n: V)
    requires forall i :: 0 <= i < |pairs| ==> pairs[i].0 != pairs[i].1
    ensures n in Keys(AddInteractions(m, pairs, b).linear) <==>
      n in Keys(m.linear) || exists i :: 0 <= i < |pairs| && Touches(pairs[i], n)
    decreases |pairs|
  {
    if |pairs| > 0 {
      HasAddCoupling(m, pairs[0].0, pairs[0].1, b, n);
      HasAddInteractions(AddCoupling(m, pairs[0].0, pairs[0].1, b), pairs[1..], b, n);
      TouchesTail(pairs, n);
    }
  }

  /** add_interactions_from over a dict holds exactly the old variables and
      the ends of every key. */
  lemma {:induction false} HasAddInteractionsFrom<V>(m: BQM<V>, q: Dict<(V, V), real>, vt: Vartype, n: V)
    requires forall i :: 0 <= i < |q| ==> q[i].0.0 != q[i].0.1
    ensures n in Keys(AddInteractionsFrom(m, q, vt).linear) <==>
      n in Keys(m.linear) || exists i :: 0 <= i < |q| && Touches(q[i].0, n)
    decreases |q|
  {
    if |q| > 0 {
      HasAddInteraction(m, q[0].0.0, q[0].0.1, q[0].1, vt, n);
      HasAddInteractionsFrom(AddInteraction(m, q[0].0.0, q[0].0.1, q[0].1, vt), q[1..], vt, n);
      TouchesTail(Keys(q), n);
      assert Keys(q)[1..] == Keys(q[1..]);
    }
  }

  /** n is an end of some pair iff it is an end of the first or of a later one. */
  lemma TouchesTail<V>(pairs: seq<(V, V)>, n: V)
    requires |pairs| > 0
    ensures (exists i :: 0 <= i < |pairs| && Touches(pairs[i], n)) <==>
      Touches(pairs[0], n) || exists i :: 0 <= i < |pairs[1..]| && Touches(pairs[1..][i], n)
  {
    if exists i :: 0 <= i < |pairs| && Touches(pairs[i], n) {
      var i :| 0 <= i < |pairs| && Touches(pairs[i], n);
      if i > 0 {
        assert pairs[1..][i - 1] == pairs[i];
      }
    }
    if exists i :: 0 <= i < |pairs[1..]| && Touches(pairs[1..][i], n) {
      var i :| 0 <= i < |pairs[1..]| && Touches(pairs[1..][i], n);
      assert pairs[i + 1] == pairs[1..][i];
    }
  }
}
