/**
 Bias conservation when no target node serves two source variables (the
 usual case for an embedding): every node of v's chain carries bias / |chain|
 so the chain's biases add up to v's bias, and every available edge of an
 interaction carries bias / count so those edges add up to the interaction's
 bias. The chain penalties never touch an edge between two different chains.
 */
module Conservation {
  import opened Results
  import opened Dicts
  import opened Bqm
  import opened BqmFacts
  import opened Embed
  import opened EmbedErrors
  import opened EmbedBiases
  import opened Edges

  /** No target node belongs to two chains of the embedding. */
  predicate DisjointChains<V, T(==)>(embedding: Embedding<V, T>) {
    forall i, j, x :: 0 <= i < j < |embedding| && x in embedding[i].1 ==> x !in embedding[j].1
  }

  /** c added up `count` times. */
  function Times(count: nat, c: real): real {
    if count == 0 then 0.0 else c + Times(count - 1, c)
  }

  /** The sum of the linear biases of `nodes`. */
  function NodeTotal<T(==)>(d: Dict<T, real>, nodes: seq<T>): real
    decreases |nodes|
  {
    if |nodes| == 0 then 0.0 else Bias(d, nodes[0]) + NodeTotal(d, nodes[1..])
  }

  /** The sum of the couplings of `pairs`. */
  function PairTotal<T(==)>(q: Dict<(T, T), real>, pairs: seq<(T, T)>): real
    decreases |pairs|
  {
    if |pairs| == 0 then 0.0 else Coupling(q, pairs[0].0, pairs[0].1) + PairTotal(q, pairs[1..])
  }

  // ---------------------------------------------------------------- arithmetic

  lemma {:induction false} TimesIsProduct(count: nat, c: real)
    ensures Times(count, c) == count as real * c
  {
    if count > 0 {
      TimesIsProduct(count - 1, c);
      MulDistributes((count - 1) as real, 1.0, c);
    }
  }

  /** Handing bias / count to each of count places hands out exactly bias. */
  lemma TimesShare(count: nat, bias: real)
    requires count > 0
    ensures Times(count, bias / count as real) == bias
  {
    TimesIsProduct(count, bias / count as real);
  }

  lemma {:induction false} NodeTotalEven<T>(d: Dict<T, real>, nodes: seq<T>, c: real)
    requires forall k :: 0 <= k < |nodes| ==> Bias(d, nodes[k]) == c
    ensures NodeTotal(d, nodes) == Times(|nodes|, c)
    decreases |nodes|
  {
    if |nodes| > 0 {
      NodeTotalEven(d, nodes[1..], c);
    }
  }

  lemma {:induction false} PairTotalEven<T>(q: Dict<(T, T), real>, pairs: seq<(T, T)>, c: real)
    requires forall k :: 0 <= k < |pairs| ==> Coupling(q, pairs[k].0, pairs[k].1) == c
    ensures PairTotal(q, pairs) == Times(|pairs|, c)
    decreases |pairs|
  {
    if |pairs| > 0 {
      PairTotalEven(q, pairs[1..], c);
    }
  }

  // ---------------------------------------------------------------- whose chain

  lemma SameEntry<V, T>(embedding: Embedding<V, T>, i: nat, j: nat, x: T)
    requires DisjointChains(embedding)
    requires i < |embedding| && j < |embedding|
    requires x in embedding[i].1 && x in embedding[j].1
    ensures i == j
  {
  }

  /** The entry of the embedding that a resolved variable's chain comes from. */
  function Owner<V(==), T(==)>(embedding: Embedding<V, T>, adj: Adjacency<T>, v: V): (i: nat)
    requires Resolves(embedding, adj, v)
    ensures i < |embedding| && embedding[i].0 == v && embedding[i].1 == ChainOf(embedding, adj, v)
  {
    LookupHit(embedding, v);
    IndexOfKey(embedding, v)
  }

  /** With disjoint chains, a node lies in the chain of one variable at most. */
  lemma SameVariable<V, T>(embedding: Embedding<V, T>, adj: Adjacency<T>, u: V, v: V, x: T)
    requires DisjointChains(embedding)
    requires Resolves(embedding, adj, u) && Resolves(embedding, adj, v)
    requires x in ChainOf(embedding, adj, u) && x in ChainOf(embedding, adj, v)
    ensures u == v
  {
    SameEntry(embedding, Owner(embedding, adj, u), Owner(embedding, adj, v), x);
  }

  // ---------------------------------------------------------------- linear

  /** A share sum with one non-zero term is that term. */
  lemma {:induction false} OnlyPortion<V, T>(linear: Dict<V, real>, embedding: Embedding<V, T>, adj: Adjacency<T>, i: nat, n: T)
    requires i < |linear|
    requires forall j :: 0 <= j < |linear| && j != i ==> Portion(embedding, adj, linear[j], n) == 0.0
    ensures LinearShare(linear, embedding, adj, n) == Portion(embedding, adj, linear[i], n)
    decreases |linear|
  {
    if i == 0 {
      NoPortion(linear[1..], embedding, adj, n);
    } else {
      OnlyPortion(linear[1..], embedding, adj, i - 1, n);
    }
  }

  lemma {:induction false} NoPortion<V, T>(linear: Dict<V, real>, embedding: Embedding<V, T>, adj: Adjacency<T>, n: T)
    requires forall j :: 0 <= j < |linear| ==> Portion(embedding, adj, linear[j], n) == 0.0
    ensures LinearShare(linear, embedding, adj, n) == 0.0
    decreases |linear|
  {
    if |linear| > 0 {
      NoPortion(linear[1..], embedding, adj, n);
    }
  }

  /** With disjoint chains, a node of v's chain gets bias(v) / |chain| from the linear pass and nothing else. */
  lemma LinearShareOnChain<V, T>(linear: Dict<V, real>, embedding: Embedding<V, T>, adj: Adjacency<T>, i: nat, n: T)
    requires IsDict(linear) && DisjointChains(embedding)
    requires i < |linear| && Resolves(embedding, adj, linear[i].0)
    requires n in ChainOf(embedding, adj, linear[i].0)
    ensures LinearShare(linear, embedding, adj, n) == linear[i].1 / |ChainOf(embedding, adj, linear[i].0)| as real
  {
    forall j | 0 <= j < |linear| && j != i
      ensures Portion(embedding, adj, linear[j], n) == 0.0
    {
      if Resolves(embedding, adj, linear[j].0) && n in ChainOf(embedding, adj, linear[j].0) {
        SameVariable(embedding, adj, linear[i].0, linear[j].0, n);
        assert false;
      }
    }
    OnlyPortion(linear, embedding, adj, i, n);
  }

  /** Linear smearing (SPIN): with disjoint chains, each node of a source
      variable's chain carries bias / |chain| in the target, so the chain's
      linear biases add up to exactly the source bias. */
  lemma LinearConserved<V, T>(source: BQM<V>, embedding: Embedding<V, T>, adj: Adjacency<T>, cs: real, i: nat)
    requires Valid(source) && ChainsAreSets(embedding) && Loopless(adj) && DisjointChains(embedding)
    requires source.vartype == Spin
    requires EmbedBqm(source, embedding, adj, cs).Ok?
    requires i < |source.linear|
    ensures Resolves(embedding, adj, source.linear[i].0)
    ensures var r := EmbedBqm(source, embedding, adj, cs).value;
      var chain := ChainOf(embedding, adj, source.linear[i].0);
      && (forall k :: 0 <= k < |chain| ==> Bias(r.linear, chain[k]) == source.linear[i].1 / |chain| as real)
      && NodeTotal(r.linear, chain) == source.linear[i].1
  {
    EmbedSucceeds(source, embedding, adj, cs);
    var r := EmbedBqm(source, embedding, adj, cs).value;
    var chain := ChainOf(embedding, adj, source.linear[i].0);
    var c := source.linear[i].1 / |chain| as real;
    forall k | 0 <= k < |chain|
      ensures Bias(r.linear, chain[k]) == c
    {
      EmbedBqmBiases(source, embedding, adj, cs, chain[k], chain[k], chain[k]);
      LinearShareOnChain(source.linear, embedding, adj, i, chain[k]);
    }
    NodeTotalEven(r.linear, chain, c);
    TimesShare(|chain|, source.linear[i].1);
  }

  // ---------------------------------------------------------------- quadratic

  lemma {:induction false} HitsNone<T>(pairs: seq<(T, T)>, s: T, t: T, c: real)
    requires forall k :: 0 <= k < |pairs| ==> !Joins(pairs[k], s, t)
    ensures Hits(pairs, s, t, c) == 0.0
    decreases |pairs|
  {
    if |pairs| > 0 {
      HitsNone(pairs[1..], s, t, c);
    }
  }

  /** A pair listed once, and never the other way round, is hit once. */
  lemma {:induction false} HitsOnce<T>(pairs: seq<(T, T)>, s: T, t: T, c: real)
    requires Distinct(pairs) && (s, t) in pairs && (t, s) !in pairs
    ensures Hits(pairs, s, t, c) == c
    decreases |pairs|
  {
    DistinctTail(pairs);
    if pairs[0] == (s, t) {
      forall k | 0 <= k < |pairs[1..]| ensures !Joins(pairs[1..][k], s, t) {
        assert pairs[1..][k] == pairs[k + 1];
      }
      HitsNone(pairs[1..], s, t, c);
    } else {
      assert (s, t) in pairs[1..];
      HitsOnce(pairs[1..], s, t, c);
    }
  }

  lemma {:induction false} OnlyTerm<V, T>(quadratic: Dict<(V, V), real>, embedding: Embedding<V, T>, adj: Adjacency<T>, i: nat, s: T, t: T)
    requires i < |quadratic|
    requires forall j :: 0 <= j < |quadratic| && j != i ==> TermShare(embedding, adj, quadratic[j], s, t) == 0.0
    ensures QuadShare(quadratic, embedding, adj, s, t) == TermShare(embedding, adj, quadratic[i], s, t)
    decreases |quadratic|
  {
    if i == 0 {
      NoTerm(quadratic[1..], embedding, adj, s, t);
    } else {
      OnlyTerm(quadratic[1..], embedding, adj, i - 1, s, t);
    }
  }

  lemma {:induction false} NoTerm<V, T>(quadratic: Dict<(V, V), real>, embedding: Embedding<V, T>, adj: Adjacency<T>, s: T, t: T)
    requires forall j :: 0 <= j < |quadratic| ==> TermShare(embedding, adj, quadratic[j], s, t) == 0.0
    ensures QuadShare(quadratic, embedding, adj, s, t) == 0.0
    decreases |quadratic|
  {
    if |quadratic| > 0 {
      NoTerm(quadratic[1..], embedding, adj, s, t);
    }
  }

  /** A term's available edge joins nodes of two different variables' chains. */
  predicate Between<V(==), T(==)>(embedding: Embedding<V, T>, adj: Adjacency<T>, u: V, v: V, s: T, t: T) {
    && Resolves(embedding, adj, u) && Resolves(embedding, adj, v)
    && s in ChainOf(embedding, adj, u) && t in ChainOf(embedding, adj, v)
  }

  /** Another interaction's edges never join s and t. */
  lemma OtherTermMisses<V, T>(source: BQM<V>, embedding: Embedding<V, T>, adj: Adjacency<T>, i: nat, j: nat, s: T, t: T)
    requires Valid(source) && DisjointChains(embedding)
    requires i < |source.quadratic| && j < |source.quadratic| && i != j
    requires Between(embedding, adj, source.quadratic[i].0.0, source.quadratic[i].0.1, s, t)
    ensures TermShare(embedding, adj, source.quadratic[j], s, t) == 0.0
  {
    var (u, v) := source.quadratic[i].0;
    var (u', v') := source.quadratic[j].0;
    if Resolves(embedding, adj, u') && Resolves(embedding, adj, v') {
      var pairs := Available(embedding, adj, u', v');
      forall k | 0 <= k < |pairs| ensures !Joins(pairs[k], s, t) {
        var p := pairs[k];
        assert p.0 in ChainOf(embedding, adj, u') && p.1 in ChainOf(embedding, adj, v');
        if p == (s, t) {
          SameVariable(embedding, adj, u, u', s);
          SameVariable(embedding, adj, v, v', t);
          assert false;
        } else if p == (t, s) {
          SameVariable(embedding, adj, v, u', t);
          SameVariable(embedding, adj, u, v', s);
          assert false;
        }
      }
      if |pairs| > 0 {
        HitsNone(pairs, s, t, source.quadratic[j].1 / |pairs| as real);
      }
    }
  }

  /** The chain penalties never join nodes of two different variables' chains. */
  lemma {:induction false} PenaltiesMiss<V, T>(embedding: Embedding<V, T>, adj: Adjacency<T>, u: V, v: V, s: T, t: T, cs: real, from: nat)
    requires DisjointChains(embedding) && u != v
    requires Between(embedding, adj, u, v, s, t)
    requires from <= |embedding|
    ensures PenaltyHits(Values(embedding)[from..], adj, s, t, cs) == 0.0
    decreases |embedding| - from
  {
    if from < |embedding| {
      var chains := Values(embedding)[from..];
      assert chains[0] == embedding[from].1;
      var edges := ChainEdges(chains[0], adj);
      forall k | 0 <= k < |edges| ensures !Joins(edges[k], s, t) {
        if Joins(edges[k], s, t) {
          assert s in embedding[from].1 && t in embedding[from].1;
          SameEntry(embedding, from, Owner(embedding, adj, u), s);
          SameEntry(embedding, from, Owner(embedding, adj, v), t);
        }
      }
      HitsNone(edges, s, t, cs);
      assert chains[1..] == Values(embedding)[from + 1..];
      PenaltiesMiss(embedding, adj, u, v, s, t, cs, from + 1);
    }
  }

  /** Once the transform succeeds, every source interaction has an available edge. */
  lemma EmbedAvailable<V, T>(source: BQM<V>, embedding: Embedding<V, T>, adj: Adjacency<T>, cs: real, i: nat)
    requires Valid(source) && ChainsAreSets(embedding) && Loopless(adj)
    requires EmbedBqm(source, embedding, adj, cs).Ok?
    requires i < |source.quadratic|
    ensures Resolves(embedding, adj, source.quadratic[i].0.0) && Resolves(embedding, adj, source.quadratic[i].0.1)
    ensures |Available(embedding, adj, source.quadratic[i].0.0, source.quadratic[i].0.1)| > 0
  {
    EmbedSucceeds(source, embedding, adj, cs);
    assert Linked(embedding, adj, source.quadratic[i].0.0, source.quadratic[i].0.1);
    AvailableLinked(embedding, adj, source.quadratic[i].0.0, source.quadratic[i].0.1);
  }

  /** Quadratic smearing: with disjoint chains, each available edge of a
      source interaction carries bias / count in the target, in either
      vartype, so those edges add up to exactly the source bias. */
  lemma QuadraticConserved<V, T>(source: BQM<V>, embedding: Embedding<V, T>, adj: Adjacency<T>, cs: real, i: nat)
    requires Valid(source) && ChainsAreSets(embedding) && Loopless(adj) && DisjointChains(embedding)
    requires EmbedBqm(source, embedding, adj, cs).Ok?
    requires i < |source.quadratic|
    ensures Resolves(embedding, adj, source.quadratic[i].0.0) && Resolves(embedding, adj, source.quadratic[i].0.1)
    ensures var r := EmbedBqm(source, embedding, adj, cs).value;
      var pairs := Available(embedding, adj, source.quadratic[i].0.0, source.quadratic[i].0.1);
      && |pairs| > 0
      && (forall k :: 0 <= k < |pairs| ==> Coupling(r.quadratic, pairs[k].0, pairs[k].1) == source.quadratic[i].1 / |pairs| as real)
      && PairTotal(r.quadratic, pairs) == source.quadratic[i].1
  {
    EmbedAvailable(source, embedding, adj, cs, i);
    var r := EmbedBqm(source, embedding, adj, cs).value;
    var (u, v) := source.quadratic[i].0;
    assert ValidPair(source, source.quadratic[i].0);
    var pairs := Available(embedding, adj, u, v);
    var c := source.quadratic[i].1 / |pairs| as real;
    LookupChainIsSet(embedding, u);
    LookupChainIsSet(embedding, v);
    InteractionsDistinct(ChainOf(embedding, adj, u), ChainOf(embedding, adj, v), adj);
    forall k | 0 <= k < |pairs|
      ensures Coupling(r.quadratic, pairs[k].0, pairs[k].1) == c
    {
      var (s, t) := pairs[k];
      assert Between(embedding, adj, u, v, s, t);
      if (t, s) in pairs {
        SameVariable(embedding, adj, u, v, t);
      }
      HitsOnce(pairs, s, t, c);
      forall j | 0 <= j < |source.quadratic| && j != i
        ensures TermShare(embedding, adj, source.quadratic[j], s, t) == 0.0
      {
        OtherTermMisses(source, embedding, adj, i, j, s, t);
      }
      OnlyTerm(source.quadratic, embedding, adj, i, s, t);
      PenaltiesMiss(embedding, adj, u, v, s, t, cs, 0);
      assert Values(embedding)[0..] == Values(embedding);
      EmbedBqmBiases(source, embedding, adj, cs, s, t, s);
    }
    PairTotalEven(r.quadratic, pairs, c);
    TimesShare(|pairs|, source.quadratic[i].1);
  }
}
