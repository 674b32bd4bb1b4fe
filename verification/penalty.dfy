/**
 The energy of the chain penalties: what the chain pass of embed_bqm adds to
 the target model's energy at a sample. Read as spins, a penalty edge (a, b)
 of a chain costs cs * (1 - s_a * s_b): nothing while its two nodes agree and
 2 * cs once they disagree, in a SPIN and in a BINARY target alike.
 */
module Penalty {
  import opened Results
  import opened Dicts
  import opened Bqm
  import opened BqmFacts
  import opened Embed
  import opened EmbedBiases

  /** One SPIN coupling entry b on (u, v), weighted by the sample read as spins. */
  function SpinTerm<V>(vt: Vartype, x: V -> real, e: ((V, V), real)): real {
    e.1 * (SpinOf(vt, x(e.0.0)) * SpinOf(vt, x(e.0.1)))
  }

  /** The sum of b * s_u * s_v over a dict of SPIN couplings, where s is the
      sample read as spins in the vartype `vt`. */
  function SpinWeighted<V>(q: Dict<(V, V), real>, vt: Vartype, x: V -> real): real {
    if |q| == 0 then 0.0 else SpinTerm(vt, x, q[0]) + SpinWeighted(q[1..], vt, x)
  }

  /** One entry of `add_interactions_from(q, vartype=SPIN)`. */
  lemma EnergyAddSpinEntry<V>(m: BQM<V>, e: ((V, V), real), x: V -> real)
    requires e.0.0 != e.0.1
    ensures Energy(AddInteraction(m, e.0.0, e.0.1, e.1, Spin), x) == Energy(m, x) + SpinTerm(m.vartype, x, e)
  {
    var u, v, b := e.0.0, e.0.1, e.1;
    assert AddInteraction(m, u, v, b, Spin) == AddInteraction(m, e.0.0, e.0.1, e.1, Spin);
    EnergyAddSpinInteraction(m, u, v, b, x);
    SpinTermParts(m, x, e, u, v, b);
  }

  lemma SpinTermParts<V>(m: BQM<V>, x: V -> real, e: ((V, V), real), u: V, v: V, b: real)
    requires e == ((u, v), b)
    ensures SpinTerm(m.vartype, x, e) == b * (SpinOf(m.vartype, x(u)) * SpinOf(m.vartype, x(v)))
  {
  }

  /** `add_interactions_from(q, vartype=SPIN)` adds the spin-weighted sum of
      `q` to the energy, whatever the model's own vartype. */
  lemma {:induction false} EnergySpinInteractions<V>(m: BQM<V>, q: Dict<(V, V), real>, x: V -> real)
    requires forall i :: 0 <= i < |q| ==> q[i].0.0 != q[i].0.1
    ensures Energy(AddInteractionsFrom(m, q, Spin), x) == Energy(m, x) + SpinWeighted(q, m.vartype, x)
    decreases |q|
  {
    if |q| > 0 {
      var e := q[0];
      var m' := AddInteraction(m, e.0.0, e.0.1, e.1, Spin);
      var rest := q[1..];
      EnergyAddSpinEntry(m, e, x);
      EnergySpinInteractions(m', rest, x);
    }
  }

  // ---------------------------------------------------------------- one chain

  /** What a penalty edge (a, b) of strength cs costs at x: cs * (1 - s_a * s_b). */
  function EdgeStress<T>(vt: Vartype, x: T -> real, cs: real, e: (T, T)): real {
    cs - cs * (SpinOf(vt, x(e.0)) * SpinOf(vt, x(e.1)))
  }

  /** The energy the penalty edges of a chain add at x. */
  function Stress<T>(edges: seq<(T, T)>, vt: Vartype, x: T -> real, cs: real): real
    decreases |edges|
  {
    if |edges| == 0 then 0.0 else EdgeStress(vt, x, cs, edges[0]) + Stress(edges[1..], vt, x, cs)
  }

  lemma EntryStress<T>(vt: Vartype, x: T -> real, cs: real, w: ((T, T), real), e: (T, T))
    requires w == (e, -cs)
    ensures SpinTerm(vt, x, w) - w.1 * One(w.0) == EdgeStress(vt, x, cs, e)
  {
  }

  /** The couplings of chain_to_quadratic, less their sum moved to the offset,
      add the chain's stress. */
  lemma {:induction false} PenaltyIsStress<T>(edges: seq<(T, T)>, vt: Vartype, x: T -> real, cs: real)
    ensures SpinWeighted(WithBias(edges, -cs), vt, x) - Total(WithBias(edges, -cs)) == Stress(edges, vt, x, cs)
    decreases |edges|
  {
    if |edges| > 0 {
      var q := WithBias(edges, -cs);
      var rest := edges[1..];
      var w := q[0];
      var e := edges[0];
      assert q[1..] == WithBias(rest, -cs);
      PenaltyIsStress(rest, vt, x, cs);
      EntryStress(vt, x, cs, w, e);
    }
  }

  /** One iteration of the chain loop adds exactly the chain's stress: a
      single node adds nothing, a longer chain its penalty edges. */
  lemma EnergyPenalizeChain<T>(m: BQM<T>, chain: seq<T>, adj: Adjacency<T>, cs: real, x: T -> real)
    requires Distinct(chain)
    ensures Energy(PenalizeChain(m, chain, adj, cs), x) == Energy(m, x) + Stress(ChainEdges(chain, adj), m.vartype, x, cs)
  {
    if |chain| == 1 {
      EnergyPenalizeSingleton(m, chain, adj, cs, x);
    } else {
      EnergyPenalizeLonger(m, chain, adj, cs, x);
    }
  }

  lemma EnergyPenalizeSingleton<T>(m: BQM<T>, chain: seq<T>, adj: Adjacency<T>, cs: real, x: T -> real)
    requires |chain| == 1
    ensures Energy(PenalizeChain(m, chain, adj, cs), x) == Energy(m, x) + Stress(ChainEdges(chain, adj), m.vartype, x, cs)
  {
    var c0 := chain[0];
    PenalizeSingleton(m, chain, adj, cs, c0);
    EnergyAddVariable(m, c0, 0.0, x);
  }

  lemma EnergyPenalizeLonger<T>(m: BQM<T>, chain: seq<T>, adj: Adjacency<T>, cs: real, x: T -> real)
    requires Distinct(chain) && |chain| != 1
    ensures Energy(PenalizeChain(m, chain, adj, cs), x) == Energy(m, x) + Stress(ChainEdges(chain, adj), m.vartype, x, cs)
  {
    var edges := ChainEdges(chain, adj);
    var vt := m.vartype;
    var q := WithBias(edges, -cs);
    assert ChainToQuadratic(chain, adj, cs) == q;
    assert forall i :: 0 <= i < |q| ==> q[i].0 == Keys(q)[i] == edges[i];
    EnergySpinInteractions(m, q, x);
    PenaltyIsStress(edges, vt, x, cs);
  }

  /** The stress of every chain of the embedding. */
  function ChainsStress<T>(chains: seq<seq<T>>, adj: Adjacency<T>, vt: Vartype, x: T -> real, cs: real): real
    decreases |chains|
  {
    if |chains| == 0 then 0.0
    else Stress(ChainEdges(chains[0], adj), vt, x, cs) + ChainsStress(chains[1..], adj, vt, x, cs)
  }

  /** The chain pass adds the stress of all chains to the energy. */
  lemma {:induction false} EnergyChainPenalties<T>(chains: seq<seq<T>>, adj: Adjacency<T>, cs: real, m: BQM<T>, x: T -> real)
    requires forall i :: 0 <= i < |chains| ==> Distinct(chains[i])
    ensures Energy(AddChainPenalties(chains, adj, cs, m), x) == Energy(m, x) + ChainsStress(chains, adj, m.vartype, x, cs)
    decreases |chains|
  {
    if |chains| > 0 {
      var chain := chains[0];
      var rest := chains[1..];
      var m' := PenalizeChain(m, chain, adj, cs);
      EnergyPenalizeChain(m, chain, adj, cs, x);
      EnergyChainPenalties(rest, adj, cs, m', x);
    }
  }

  // ---------------------------------------------------------------- what the stress is worth

  /** A sample value the model's vartype allows: -1 or 1 for SPIN, 0 or 1 for BINARY. */
  predicate InDomain(vt: Vartype, a: real) {
    if vt == Spin then a == -1.0 || a == 1.0 else a == 0.0 || a == 1.0
  }

  /** The edges whose two ends take different values at x, in order. */
  function Broken<T>(edges: seq<(T, T)>, x: T -> real): (b: seq<(T, T)>)
    ensures |b| <= |edges|
    decreases |edges|
  {
    if |edges| == 0 then []
    else (if x(edges[0].0) != x(edges[0].1) then [edges[0]] else []) + Broken(edges[1..], x)
  }

  /** An edge whose ends agree costs nothing; one whose ends disagree costs
      twice the chain strength. */
  lemma EdgeCost<T>(vt: Vartype, x: T -> real, cs: real, e: (T, T))
    requires InDomain(vt, x(e.0)) && InDomain(vt, x(e.1))
    ensures EdgeStress(vt, x, cs, e) == if x(e.0) == x(e.1) then 0.0 else 2.0 * cs
  {
  }

  /** The stress of a chain is chain_strength twice over for each broken edge. */
  lemma {:induction false} StressIsBroken<T>(edges: seq<(T, T)>, vt: Vartype, x: T -> real, cs: real)
    requires forall i :: 0 <= i < |edges| ==> InDomain(vt, x(edges[i].0)) && InDomain(vt, x(edges[i].1))
    ensures Stress(edges, vt, x, cs) == 2.0 * PerEdge(Broken(edges, x), cs)
    decreases |edges|
  {
    if |edges| > 0 {
      var e := edges[0];
      var rest := edges[1..];
      EdgeCost(vt, x, cs, e);
      StressIsBroken(rest, vt, x, cs);
      if x(e.0) != x(e.1) {
        assert Broken(edges, x) == [e] + Broken(rest, x);
        assert ([e] + Broken(rest, x))[1..] == Broken(rest, x);
      } else {
        assert Broken(edges, x) == Broken(rest, x);
      }
    }
  }

  /** All nodes of the chain take the same value at x. */
  predicate Agrees<T>(chain: seq<T>, x: T -> real) {
    forall i, j :: 0 <= i < |chain| && 0 <= j < |chain| ==> x(chain[i]) == x(chain[j])
  }

  /** Edges inside a chain that agrees are never broken. */
  lemma {:induction false} NoneBroken<T>(edges: seq<(T, T)>, chain: seq<T>, x: T -> real)
    requires Agrees(chain, x)
    requires forall i :: 0 <= i < |edges| ==> edges[i].0 in chain && edges[i].1 in chain
    ensures Broken(edges, x) == []
    decreases |edges|
  {
    if |edges| > 0 {
      NoneBroken(edges[1..], chain, x);
    }
  }

  /** Every node of every chain takes a value of the vartype's domain. */
  predicate ChainsInDomain<T>(chains: seq<seq<T>>, vt: Vartype, x: T -> real) {
    forall i, j :: 0 <= i < |chains| && 0 <= j < |chains[i]| ==> InDomain(vt, x(chains[i][j]))
  }

  /** chain_strength once for every broken chain edge, over all chains. */
  function BrokenCost<T>(chains: seq<seq<T>>, adj: Adjacency<T>, x: T -> real, cs: real): real
    decreases |chains|
  {
    if |chains| == 0 then 0.0
    else PerEdge(Broken(ChainEdges(chains[0], adj), x), cs) + BrokenCost(chains[1..], adj, x, cs)
  }

  /** Over all chains, the penalty energy is twice chain_strength per broken edge. */
  lemma {:induction false} ChainsStressIsBroken<T>(chains: seq<seq<T>>, adj: Adjacency<T>, vt: Vartype, x: T -> real, cs: real)
    requires ChainsInDomain(chains, vt, x)
    ensures ChainsStress(chains, adj, vt, x, cs) == 2.0 * BrokenCost(chains, adj, x, cs)
    decreases |chains|
  {
    if |chains| > 0 {
      var chain := chains[0];
      var edges := ChainEdges(chain, adj);
      forall i | 0 <= i < |edges|
        ensures InDomain(vt, x(edges[i].0)) && InDomain(vt, x(edges[i].1))
      {
        var j :| 0 <= j < |chain| && chain[j] == edges[i].0;
        var k :| 0 <= k < |chain| && chain[k] == edges[i].1;
        assert chains[0][j] == chain[j] && chains[0][k] == chain[k];
      }
      StressIsBroken(edges, vt, x, cs);
      assert ChainsInDomain(chains[1..], vt, x) by {
        forall i, j | 0 <= i < |chains[1..]| && 0 <= j < |chains[1..][i]|
          ensures InDomain(vt, x(chains[1..][i][j]))
        {
          assert chains[1..][i] == chains[i + 1];
        }
      }
      ChainsStressIsBroken(chains[1..], adj, vt, x, cs);
    }
  }

  /** When every chain agrees, no chain edge is broken. */
  lemma {:induction false} NoBrokenCost<T>(chains: seq<seq<T>>, adj: Adjacency<T>, x: T -> real, cs: real)
    requires forall i :: 0 <= i < |chains| ==> Agrees(chains[i], x)
    ensures BrokenCost(chains, adj, x, cs) == 0.0
    decreases |chains|
  {
    if |chains| > 0 {
      var chain := chains[0];
      NoneBroken(ChainEdges(chain, adj), chain, x);
      NoBrokenCost(chains[1..], adj, x, cs);
    }
  }

  /** With no chain strength the penalties cost nothing anywhere. */
  lemma {:induction false} ZeroStrengthStress<T>(chains: seq<seq<T>>, adj: Adjacency<T>, vt: Vartype, x: T -> real)
    ensures ChainsStress(chains, adj, vt, x, 0.0) == 0.0
    decreases |chains|
  {
    if |chains| > 0 {
      ZeroStrengthEdges(ChainEdges(chains[0], adj), vt, x);
      ZeroStrengthStress(chains[1..], adj, vt, x);
    }
  }

  lemma {:induction false} ZeroStrengthEdges<T>(edges: seq<(T, T)>, vt: Vartype, x: T -> real)
    ensures Stress(edges, vt, x, 0.0) == 0.0
    decreases |edges|
  {
    if |edges| > 0 {
      ZeroStrengthEdges(edges[1..], vt, x);
    }
  }

  // ---------------------------------------------------------------- embed_bqm

  /** chain_strength enters the energy of the embedded model only through the
      chain stress: the energy is that of the same embedding without
      penalties plus the stress of every chain. */
  lemma EmbedEnergy<V, T>(source: BQM<V>, embedding: Embedding<V, T>, adj: Adjacency<T>, cs: real, x: T -> real)
    requires Valid(source) && ChainsAreSets(embedding) && Loopless(adj)
    requires EmbedBqm(source, embedding, adj, cs).Ok?
    ensures EmbedBqm(source, embedding, adj, 0.0).Ok?
    ensures Energy(EmbedBqm(source, embedding, adj, cs).value, x)
         == Energy(EmbedBqm(source, embedding, adj, 0.0).value, x) + ChainsStress(Values(embedding), adj, source.vartype, x, cs)
  {
    var start := AddOffset(Empty(source.vartype), source.offset);
    var withLinear := SmearLinear(source.linear, embedding, adj, start).value;
    LinearPassResolves(source, embedding, adj, start);
    var withQuadratic := SmearQuadratic(source.quadratic, embedding, adj, withLinear).value;
    var chains := Values(embedding);
    assert forall i :: 0 <= i < |chains| ==> Distinct(chains[i]);
    EnergyChainPenalties(chains, adj, cs, withQuadratic, x);
    EnergyChainPenalties(chains, adj, 0.0, withQuadratic, x);
    ZeroStrengthStress(chains, adj, withQuadratic.vartype, x);
  }

  /** Penalty neutrality and the cost of a break: at a sample in the model's
      domain, the embedded energy exceeds the penalty-free one by twice
      chain_strength per broken chain edge, and not at all when every chain
      agrees. */
  lemma EmbedPenalty<V, T>(source: BQM<V>, embedding: Embedding<V, T>, adj: Adjacency<T>, cs: real, x: T -> real)
    requires Valid(source) && ChainsAreSets(embedding) && Loopless(adj)
    requires EmbedBqm(source, embedding, adj, cs).Ok?
    requires ChainsInDomain(Values(embedding), source.vartype, x)
    ensures EmbedBqm(source, embedding, adj, 0.0).Ok?
    ensures Energy(EmbedBqm(source, embedding, adj, cs).value, x)
         == Energy(EmbedBqm(source, embedding, adj, 0.0).value, x) + 2.0 * BrokenCost(Values(embedding), adj, x, cs)
    ensures (forall i :: 0 <= i < |embedding| ==> Agrees(embedding[i].1, x)) ==>
      Energy(EmbedBqm(source, embedding, adj, cs).value, x) == Energy(EmbedBqm(source, embedding, adj, 0.0).value, x)
  {
    var chains := Values(embedding);
    var vt := source.vartype;
    EmbedEnergy(source, embedding, adj, cs, x);
    ChainsStressIsBroken(chains, adj, vt, x, cs);
    if forall i :: 0 <= i < |embedding| ==> Agrees(embedding[i].1, x) {
      NoBrokenCost(chains, adj, x, cs);
    }
  }
}
