/**
 Where every bias of the target model comes from. Each pass of `embed_bqm`
 is described bias by bias: the linear bias of a target node, the coupling of
 a pair of target nodes and the offset, each as what the pass found plus a
 sum over the source terms (or chains) that reach it.
 */
module EmbedBiases {
  import opened Results
  import opened Dicts
  import opened Bqm
  import opened BqmFacts
  import opened Embed

  // ---------------------------------------------------------------- reference sums

  /** c once for each entry of `pairs` that joins s and t. */
  function Hits<T(==)>(pairs: seq<(T, T)>, s: T, t: T, c: real): real
    decreases |pairs|
  {
    if |pairs| == 0 then 0.0
    else (if Joins(pairs[0], s, t) then c else 0.0) + Hits(pairs[1..], s, t, c)
  }

  /** c once for each entry of `pairs` that has n as an end. */
  function Ends<T(==)>(pairs: seq<(T, T)>, n: T, c: real): real
    decreases |pairs|
  {
    if |pairs| == 0 then 0.0
    else (if Touches(pairs[0], n) then c else 0.0) + Ends(pairs[1..], n, c)
  }

  /** The biases of the entries of q that join s and t. */
  function EntryHits<T(==)>(q: Dict<(T, T), real>, s: T, t: T): real
    decreases |q|
  {
    if |q| == 0 then 0.0
    else (if Joins(q[0].0, s, t) then q[0].1 else 0.0) + EntryHits(q[1..], s, t)
  }

  /** The biases of the entries of q that have n as an end. */
  function EntryEnds<T(==)>(q: Dict<(T, T), real>, n: T): real
    decreases |q|
  {
    if |q| == 0 then 0.0
    else (if Touches(q[0].0, n) then q[0].1 else 0.0) + EntryEnds(q[1..], n)
  }

  /** What the linear term (v, bias) gives node n: bias / |chain| if n is in v's chain. */
  function Portion<V(==), T(==)>(embedding: Embedding<V, T>, adj: Adjacency<T>, term: (V, real), n: T): real {
    if Resolves(embedding, adj, term.0) && n in ChainOf(embedding, adj, term.0)
    then term.1 / |ChainOf(embedding, adj, term.0)| as real
    else 0.0
  }

  /** The linear bias node n collects from all the source's linear terms. */
  function LinearShare<V(==), T(==)>(linear: Dict<V, real>, embedding: Embedding<V, T>, adj: Adjacency<T>, n: T): real
    decreases |linear|
  {
    if |linear| == 0 then 0.0
    else Portion(embedding, adj, linear[0], n) + LinearShare(linear[1..], embedding, adj, n)
  }

  /** What the quadratic term ((u, v), bias) gives the pair {s, t}: bias / count
      for each available edge between the chains that joins s and t. */
  function TermShare<V(==), T(==)>(embedding: Embedding<V, T>, adj: Adjacency<T>, term: ((V, V), real), s: T, t: T): real {
    var (u, v) := term.0;
    if Resolves(embedding, adj, u) && Resolves(embedding, adj, v) && |Available(embedding, adj, u, v)| > 0
    then Hits(Available(embedding, adj, u, v), s, t, term.1 / |Available(embedding, adj, u, v)| as real)
    else 0.0
  }

  /** The coupling the pair {s, t} collects from all the source's quadratic terms. */
  function QuadShare<V(==), T(==)>(quadratic: Dict<(V, V), real>, embedding: Embedding<V, T>, adj: Adjacency<T>, s: T, t: T): real
    decreases |quadratic|
  {
    if |quadratic| == 0 then 0.0
    else TermShare(embedding, adj, quadratic[0], s, t) + QuadShare(quadratic[1..], embedding, adj, s, t)
  }

  /** c once for every chain edge, over all chains, that joins s and t. */
  function PenaltyHits<T(==)>(chains: seq<seq<T>>, adj: Adjacency<T>, s: T, t: T, c: real): real
    decreases |chains|
  {
    if |chains| == 0 then 0.0
    else Hits(ChainEdges(chains[0], adj), s, t, c) + PenaltyHits(chains[1..], adj, s, t, c)
  }

  /** c once for every chain edge, over all chains, that has n as an end. */
  function PenaltyEnds<T(==)>(chains: seq<seq<T>>, adj: Adjacency<T>, n: T, c: real): real
    decreases |chains|
  {
    if |chains| == 0 then 0.0
    else Ends(ChainEdges(chains[0], adj), n, c) + PenaltyEnds(chains[1..], adj, n, c)
  }

  /** c once for every entry of `pairs`. */
  function PerEdge<T>(pairs: seq<(T, T)>, c: real): real
    decreases |pairs|
  {
    if |pairs| == 0 then 0.0 else c + PerEdge(pairs[1..], c)
  }

  /** chain_strength once for every edge inside every chain. */
  function PenaltyOffset<T(==)>(chains: seq<seq<T>>, adj: Adjacency<T>, cs: real): real
    decreases |chains|
  {
    if |chains| == 0 then 0.0
    else PerEdge(ChainEdges(chains[0], adj), cs) + PenaltyOffset(chains[1..], adj, cs)
  }

  // ---------------------------------------------------------------- add_variables_from

  /** add_variables_from over distinct nodes adds b to exactly those nodes. */
  lemma {:induction false} AddVariablesBias<T>(m: BQM<T>, vs: seq<T>, b: real, n: T)
    requires Distinct(vs)
    ensures Bias(AddVariables(m, vs, b).linear, n) == Bias(m.linear, n) + (if n in vs then b else 0.0)
    decreases |vs|
  {
    if |vs| > 0 {
      var m1 := AddVariable(m, vs[0], b);
      assert AddVariables(m, vs, b) == AddVariables(m1, vs[1..], b);
      DistinctTail(vs);
      BiasAddVariable(m, vs[0], b, n);
      AddVariablesBias(m1, vs[1..], b, n);
      assert n in vs <==> n == vs[0] || n in vs[1..];
    }
  }

  /** A chain found by a lookup is one of the embedding's chains, so it is a set. */
  lemma LookupChainIsSet<V, T>(embedding: Embedding<V, T>, v: V)
    requires ChainsAreSets(embedding)
    requires Lookup(embedding, v).Some?
    ensures Distinct(Lookup(embedding, v).value)
  {
    LookupHit(embedding, v);
    var i := IndexOfKey(embedding, v);
  }

  /** The linear pass adds to node n exactly the portions of the terms whose chain holds n. */
  lemma {:induction false} SmearLinearBias<V, T>(linear: Dict<V, real>, embedding: Embedding<V, T>, adj: Adjacency<T>, m: BQM<T>, n: T)
    requires ChainsAreSets(embedding)
    requires SmearLinear(linear, embedding, adj, m).Ok?
    ensures Bias(SmearLinear(linear, embedding, adj, m).value.linear, n) == Bias(m.linear, n) + LinearShare(linear, embedding, adj, n)
    decreases |linear|
  {
    if |linear| > 0 {
      var (v, bias) := linear[0];
      var chain := CheckChain(embedding, adj, v).value;
      LookupChainIsSet(embedding, v);
      var m1 := AddVariables(m, chain, bias / |chain| as real);
      AddVariablesBias(m, chain, bias / |chain| as real, n);
      SmearLinearBias(linear[1..], embedding, adj, m1, n);
    }
  }

  // ---------------------------------------------------------------- add_interactions_from, quadratic pass

  /** add_interactions_from with one bias b adds b to the coupling of {s, t}
      once per pair joining them and leaves the linear biases alone. */
  lemma {:induction false} AddInteractionsBiases<T>(m: BQM<T>, pairs: seq<(T, T)>, b: real, s: T, t: T, n: T)
    requires forall i :: 0 <= i < |pairs| ==> pairs[i].0 != pairs[i].1
    ensures Coupling(AddInteractions(m, pairs, b).quadratic, s, t) == Coupling(m.quadratic, s, t) + Hits(pairs, s, t, b)
    ensures Bias(AddInteractions(m, pairs, b).linear, n) == Bias(m.linear, n)
    decreases |pairs|
  {
    if |pairs| > 0 {
      var m1 := AddCoupling(m, pairs[0].0, pairs[0].1, b);
      CouplingAddCoupling(m, pairs[0].0, pairs[0].1, b, s, t);
      BiasAddCoupling(m, pairs[0].0, pairs[0].1, b, n);
      AddInteractionsBiases(m1, pairs[1..], b, s, t, n);
    }
  }

  /** The quadratic pass adds to the coupling of {s, t} exactly the shares of
      the source interactions whose available edges join s and t. */
  lemma {:induction false} SmearQuadraticBiases<V, T>(quadratic: Dict<(V, V), real>, embedding: Embedding<V, T>, adj: Adjacency<T>, m: BQM<T>, s: T, t: T, n: T)
    requires TermsResolve(quadratic, embedding, adj)
    requires Loopless(adj)
    requires SmearQuadratic(quadratic, embedding, adj, m).Ok?
    ensures Coupling(SmearQuadratic(quadratic, embedding, adj, m).value.quadratic, s, t)
         == Coupling(m.quadratic, s, t) + QuadShare(quadratic, embedding, adj, s, t)
    ensures Bias(SmearQuadratic(quadratic, embedding, adj, m).value.linear, n) == Bias(m.linear, n)
    decreases |quadratic|
  {
    if |quadratic| > 0 {
      var (u, v) := quadratic[0].0;
      var pairs := Available(embedding, adj, u, v);
      var b := quadratic[0].1 / |pairs| as real;
      var m1 := AddInteractions(m, pairs, b);
      AddInteractionsBiases(m, pairs, b, s, t, n);
      assert TermsResolve(quadratic[1..], embedding, adj) by {
        forall i | 0 <= i < |quadratic[1..]|
          ensures Resolves(embedding, adj, quadratic[1..][i].0.0) && Resolves(embedding, adj, quadratic[1..][i].0.1)
        {
          assert quadratic[1..][i] == quadratic[i + 1];
        }
      }
      SmearQuadraticBiases(quadratic[1..], embedding, adj, m1, s, t, n);
    }
  }
  // ---------------------------------------------------------------- add_interactions_from, SPIN biases

  /** add_interactions_from(q, vartype=SPIN): in a SPIN model only the
      couplings grow, by the biases of q; in a BINARY model the offset grows
      by their total, each node's linear bias by -2 times the biases of the
      entries it ends, and the couplings by 4 times. */
  lemma {:induction false} SpinInteractionsBiases<T>(m: BQM<T>, q: Dict<(T, T), real>, s: T, t: T, n: T)
    requires forall i :: 0 <= i < |q| ==> q[i].0.0 != q[i].0.1
    ensures var r := AddInteractionsFrom(m, q, Spin);
      && r.offset == m.offset + (if m.vartype == Spin then 0.0 else Total(q))
      && Bias(r.linear, n) == Bias(m.linear, n) + (if m.vartype == Spin then 0.0 else -2.0 * EntryEnds(q, n))
      && Coupling(r.quadratic, s, t)
         == Coupling(m.quadratic, s, t) + (if m.vartype == Spin then EntryHits(q, s, t) else 4.0 * EntryHits(q, s, t))
    decreases |q|
  {
    if |q| > 0 {
      var m1 := AddInteraction(m, q[0].0.0, q[0].0.1, q[0].1, Spin);
      SpinInteractionBiases(m, q[0].0.0, q[0].0.1, q[0].1, s, t, n);
      SpinInteractionsBiases(m1, q[1..], s, t, n);
    }
  }

  lemma {:induction false} EntryHitsWithBias<T>(edges: seq<(T, T)>, b: real, s: T, t: T)
    ensures EntryHits(WithBias(edges, b), s, t) == Hits(edges, s, t, b)
    decreases |edges|
  {
    if |edges| > 0 {
      EntryHitsWithBias(edges[1..], b, s, t);
    }
  }

  lemma {:induction false} EntryEndsWithBias<T>(edges: seq<(T, T)>, b: real, n: T)
    ensures EntryEnds(WithBias(edges, b), n) == Ends(edges, n, b)
    decreases |edges|
  {
    if |edges| > 0 {
      EntryEndsWithBias(edges[1..], b, n);
    }
  }

  lemma {:induction false} TotalWithBias<T>(edges: seq<(T, T)>, b: real)
    ensures Total(WithBias(edges, b)) == PerEdge(edges, b)
    decreases |edges|
  {
    if |edges| > 0 {
      TotalWithBias(edges[1..], b);
    }
  }

  lemma {:induction false} NegatePerEdge<T>(edges: seq<(T, T)>, c: real, nc: real)
    requires nc == -c
    ensures PerEdge(edges, nc) == -PerEdge(edges, c)
    decreases |edges|
  {
    if |edges| > 0 {
      NegatePerEdge(edges[1..], c, nc);
    }
  }

  lemma {:induction false} NegateHits<T>(pairs: seq<(T, T)>, s: T, t: T, c: real, nc: real)
    requires nc == -c
    ensures Hits(pairs, s, t, nc) == -Hits(pairs, s, t, c)
    decreases |pairs|
  {
    if |pairs| > 0 {
      NegateHits(pairs[1..], s, t, c, nc);
    }
  }

  lemma {:induction false} NegateEnds<T>(pairs: seq<(T, T)>, n: T, c: real, nc: real)
    requires nc == -c
    ensures Ends(pairs, n, nc) == -Ends(pairs, n, c)
    decreases |pairs|
  {
    if |pairs| > 0 {
      NegateEnds(pairs[1..], n, c, nc);
    }
  }

  // ---------------------------------------------------------------- chain pass

  /** A chain of one node has no edges: its step places the node in the
      model, and changes no bias. */
  lemma PenalizeSingleton<T>(m: BQM<T>, chain: seq<T>, adj: Adjacency<T>, cs: real, n: T)
    requires |chain| == 1
    ensures ChainEdges(chain, adj) == []
    ensures PenalizeChain(m, chain, adj, cs) == AddVariable(m, chain[0], 0.0)
    ensures chain[0] in Keys(PenalizeChain(m, chain, adj, cs).linear)
    ensures Bias(PenalizeChain(m, chain, adj, cs).linear, n) == Bias(m.linear, n)
  {
    assert ChainEdges(chain[1..], adj) == [];
    KeysAddTo(m.linear, chain[0], 0.0);
    BiasAddVariable(m, chain[0], 0.0, n);
  }

  /** A longer chain in a SPIN model: the coupling of every chain edge falls
      by chain_strength, the offset rises by chain_strength per edge, and no
      linear bias moves. */
  lemma PenalizeChainSpin<T>(m: BQM<T>, chain: seq<T>, adj: Adjacency<T>, cs: real, s: T, t: T, n: T)
    requires Distinct(chain) && |chain| != 1 && m.vartype == Spin
    ensures var r := PenalizeChain(m, chain, adj, cs);
      && r.offset == m.offset + PerEdge(ChainEdges(chain, adj), cs)
      && Bias(r.linear, n) == Bias(m.linear, n)
      && Coupling(r.quadratic, s, t) == Coupling(m.quadratic, s, t) - Hits(ChainEdges(chain, adj), s, t, cs)
  {
    var edges := ChainEdges(chain, adj);
    var c := -cs;
    var q := WithBias(edges, c);
    assert ChainToQuadratic(chain, adj, cs) == q;
    SpinInteractionsBiases(m, q, s, t, n);
    EntryHitsWithBias(edges, c, s, t);
    NegateHits(edges, s, t, cs, c);
    TotalWithBias(edges, c);
    NegatePerEdge(edges, cs, c);
  }

  /** A longer chain in a BINARY model: the coupling of every chain edge falls
      by 4 * chain_strength, each edge end's linear bias rises by
      2 * chain_strength, and the offset is unchanged. */
  lemma PenalizeChainBinary<T>(m: BQM<T>, chain: seq<T>, adj: Adjacency<T>, cs: real, s: T, t: T, n: T)
    requires Distinct(chain) && |chain| != 1 && m.vartype == Binary
    ensures var r := PenalizeChain(m, chain, adj, cs);
      && r.offset == m.offset
      && Bias(r.linear, n) == Bias(m.linear, n) + 2.0 * Ends(ChainEdges(chain, adj), n, cs)
      && Coupling(r.quadratic, s, t) == Coupling(m.quadratic, s, t) - 4.0 * Hits(ChainEdges(chain, adj), s, t, cs)
  {
    var edges := ChainEdges(chain, adj);
    var c := -cs;
    var q := WithBias(edges, c);
    assert ChainToQuadratic(chain, adj, cs) == q;
    SpinInteractionsBiases(m, q, s, t, n);
    EntryHitsWithBias(edges, c, s, t);
    EntryEndsWithBias(edges, c, n);
    NegateHits(edges, s, t, cs, c);
    NegateEnds(edges, n, cs, c);
  }

  /** One chain's penalty, bias by bias, in either vartype. */
  lemma PenalizeChainBiases<T>(m: BQM<T>, chain: seq<T>, adj: Adjacency<T>, cs: real, s: T, t: T, n: T)
    requires Distinct(chain)
    ensures var r := PenalizeChain(m, chain, adj, cs);
      var edges := ChainEdges(chain, adj);
      && r.offset == m.offset + (if m.vartype == Spin then PerEdge(edges, cs) else 0.0)
      && Bias(r.linear, n) == Bias(m.linear, n) + (if m.vartype == Spin then 0.0 else 2.0 * Ends(edges, n, cs))
      && Coupling(r.quadratic, s, t) == Coupling(m.quadratic, s, t) - (if m.vartype == Spin then 1.0 else 4.0) * Hits(edges, s, t, cs)
  {
    if |chain| == 1 {
      PenalizeSingleton(m, chain, adj, cs, n);
    } else if m.vartype == Spin {
      PenalizeChainSpin(m, chain, adj, cs, s, t, n);
    } else {
      PenalizeChainBinary(m, chain, adj, cs, s, t, n);
    }
  }

  /** The chain pass, bias by bias: the sums of the chains' penalties. */
  lemma {:induction false} ChainPenaltiesBiases<T>(chains: seq<seq<T>>, adj: Adjacency<T>, cs: real, m: BQM<T>, s: T, t: T, n: T)
    requires forall i :: 0 <= i < |chains| ==> Distinct(chains[i])
    ensures var r := AddChainPenalties(chains, adj, cs, m);
      && r.offset == m.offset + (if m.vartype == Spin then PenaltyOffset(chains, adj, cs) else 0.0)
      && Bias(r.linear, n) == Bias(m.linear, n) + (if m.vartype == Spin then 0.0 else 2.0 * PenaltyEnds(chains, adj, n, cs))
      && Coupling(r.quadratic, s, t)
         == Coupling(m.quadratic, s, t) - (if m.vartype == Spin then 1.0 else 4.0) * PenaltyHits(chains, adj, s, t, cs)
    decreases |chains|
  {
    if |chains| > 0 {
      var m1 := PenalizeChain(m, chains[0], adj, cs);
      PenalizeChainBiases(m, chains[0], adj, cs, s, t, n);
      ChainPenaltiesBiases(chains[1..], adj, cs, m1, s, t, n);
    }
  }

  // ---------------------------------------------------------------- embed_bqm

  /** Every bias of the embedded model, accounted for: a node's linear bias
      is its share of the linear terms whose chain holds it (plus, in a
      BINARY model, 2 * chain_strength per chain edge it ends); a pair's
      coupling is its share of the interactions whose available edges join
      it, less chain_strength (4 * chain_strength in BINARY) per chain edge
      joining it; the offset is the source offset plus, in SPIN,
      chain_strength per chain edge. */
  lemma EmbedBqmBiases<V, T>(source: BQM<V>, embedding: Embedding<V, T>, adj: Adjacency<T>, cs: real, s: T, t: T, n: T)
    requires Valid(source) && ChainsAreSets(embedding) && Loopless(adj)
    requires EmbedBqm(source, embedding, adj, cs).Ok?
    ensures var r := EmbedBqm(source, embedding, adj, cs).value;
      var chains := Values(embedding);
      && r.offset == source.offset + (if source.vartype == Spin then PenaltyOffset(chains, adj, cs) else 0.0)
      && Bias(r.linear, n)
         == LinearShare(source.linear, embedding, adj, n) + (if source.vartype == Spin then 0.0 else 2.0 * PenaltyEnds(chains, adj, n, cs))
      && Coupling(r.quadratic, s, t)
         == QuadShare(source.quadratic, embedding, adj, s, t) - (if source.vartype == Spin then 1.0 else 4.0) * PenaltyHits(chains, adj, s, t, cs)
  {
    var start := AddOffset(Empty(source.vartype), source.offset);
    var withLinear := SmearLinear(source.linear, embedding, adj, start).value;
    SmearLinearBias(source.linear, embedding, adj, start, n);
    LinearPassResolves(source, embedding, adj, start);
    var withQuadratic := SmearQuadratic(source.quadratic, embedding, adj, withLinear).value;
    SmearQuadraticBiases(source.quadratic, embedding, adj, withLinear, s, t, n);
    var chains := Values(embedding);
    assert forall i :: 0 <= i < |chains| ==> Distinct(chains[i]);
    ChainPenaltiesBiases(chains, adj, cs, withQuadratic, s, t, n);
  }
}
