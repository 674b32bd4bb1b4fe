/**
 Which target nodes the model `embed_bqm` returns holds. The linear pass adds
 every node of every used variable's chain, no later pass removes a variable,
 and the chain loop adds the node of every one-node chain (lines 143-148), so
 that node appears in the target model even though no bias or edge touches it.
 */
module Placement {
  import opened Dicts
  import opened Bqm
  import opened BqmFacts
  import opened Embed

  /** After the linear pass the model holds exactly its old nodes and every
      node of every source variable's chain. */
  lemma {:induction false} SmearLinearPlaces<V, T>(linear: Dict<V, real>, embedding: Embedding<V, T>, adj: Adjacency<T>, m: BQM<T>, n: T)
    requires ChainsResolve(linear, embedding, adj)
    ensures SmearLinear(linear, embedding, adj, m).Ok?
    ensures n in Keys(SmearLinear(linear, embedding, adj, m).value.linear) <==>
      n in Keys(m.linear) || exists i :: 0 <= i < |linear| && n in ChainOf(embedding, adj, linear[i].0)
    decreases |linear|
  {
    SmearLinearChecks(linear, embedding, adj, m);
    if |linear| > 0 {
      var chain := ChainOf(embedding, adj, linear[0].0);
      var b := linear[0].1 / |chain| as real;
      assert ChainsResolve(linear[1..], embedding, adj) by {
        assert forall j :: 0 <= j < |linear| - 1 ==> linear[1..][j] == linear[j + 1];
      }
      HasAddVariables(m, chain, b, n);
      SmearLinearPlaces(linear[1..], embedding, adj, AddVariables(m, chain, b), n);
      if exists i :: 0 <= i < |linear| && n in ChainOf(embedding, adj, linear[i].0) {
        var i :| 0 <= i < |linear| && n in ChainOf(embedding, adj, linear[i].0);
        if i > 0 {
          assert linear[1..][i - 1] == linear[i];
        }
      }
      if exists i :: 0 <= i < |linear[1..]| && n in ChainOf(embedding, adj, linear[1..][i].0) {
        var i :| 0 <= i < |linear[1..]| && n in ChainOf(embedding, adj, linear[1..][i].0);
        assert linear[i + 1] == linear[1..][i];
      }
    }
  }

  /** The quadratic pass removes no node. */
  lemma {:induction false} SmearQuadraticKeeps<V, T>(quadratic: Dict<(V, V), real>, embedding: Embedding<V, T>, adj: Adjacency<T>, m: BQM<T>, n: T)
    requires TermsResolve(quadratic, embedding, adj)
    requires Loopless(adj)
    requires SmearQuadratic(quadratic, embedding, adj, m).Ok?
    requires n in Keys(m.linear)
    ensures n in Keys(SmearQuadratic(quadratic, embedding, adj, m).value.linear)
    decreases |quadratic|
  {
    if |quadratic| > 0 {
      var pairs := Available(embedding, adj, quadratic[0].0.0, quadratic[0].0.1);
      var b := quadratic[0].1 / |pairs| as real;
      assert TermsResolve(quadratic[1..], embedding, adj) by {
        assert forall j :: 0 <= j < |quadratic| - 1 ==> quadratic[1..][j] == quadratic[j + 1];
      }
      HasAddInteractions(m, pairs, b, n);
      SmearQuadraticKeeps(quadratic[1..], embedding, adj, AddInteractions(m, pairs, b), n);
    }
  }

  /** One chain's step removes no node, places the node of a one-node chain,
      and places both ends of every penalty edge of a longer one. */
  lemma PenalizeChainPlaces<T>(m: BQM<T>, chain: seq<T>, adj: Adjacency<T>, cs: real, n: T)
    requires Distinct(chain)
    ensures n in Keys(m.linear) ==> n in Keys(PenalizeChain(m, chain, adj, cs).linear)
    ensures |chain| == 1 ==> chain[0] in Keys(PenalizeChain(m, chain, adj, cs).linear)
    ensures forall k :: 0 <= k < |ChainEdges(chain, adj)| && Touches(ChainEdges(chain, adj)[k], n) ==>
      n in Keys(PenalizeChain(m, chain, adj, cs).linear)
  {
    if |chain| == 1 {
      HasAddVariable(m, chain[0], 0.0, n);
      HasAddVariable(m, chain[0], 0.0, chain[0]);
      assert ChainEdges(chain[1..], adj) == [];
    } else {
      var q := ChainToQuadratic(chain, adj, cs);
      assert forall i :: 0 <= i < |q| ==> q[i].0 == ChainEdges(chain, adj)[i];
      HasAddInteractionsFrom(m, q, Spin, n);
    }
  }

  /** The chain loop removes no node and places the node of every one-node chain. */
  lemma {:induction false} ChainPenaltiesPlaces<T>(chains: seq<seq<T>>, adj: Adjacency<T>, cs: real, m: BQM<T>, n: T)
    requires forall i :: 0 <= i < |chains| ==> Distinct(chains[i])
    ensures n in Keys(m.linear) ==> n in Keys(AddChainPenalties(chains, adj, cs, m).linear)
    ensures forall i :: 0 <= i < |chains| && |chains[i]| == 1 ==>
      chains[i][0] in Keys(AddChainPenalties(chains, adj, cs, m).linear)
    decreases |chains|
  {
    if |chains| > 0 {
      var m1 := PenalizeChain(m, chains[0], adj, cs);
      var r := AddChainPenalties(chains[1..], adj, cs, m1);
      assert AddChainPenalties(chains, adj, cs, m) == r;
      PenalizeChainPlaces(m, chains[0], adj, cs, n);
      ChainPenaltiesPlaces(chains[1..], adj, cs, m1, n);
      if |chains[0]| == 1 {
        PenalizeChainPlaces(m, chains[0], adj, cs, chains[0][0]);
        ChainPenaltiesPlaces(chains[1..], adj, cs, m1, chains[0][0]);
      }
      forall i | 1 <= i < |chains| && |chains[i]| == 1
        ensures chains[i][0] in Keys(r.linear)
      {
        assert chains[1..][i - 1] == chains[i];
      }
    }
  }

  /** `embed_bqm` places every node of every used variable's chain, and the
      node of every one-node chain of the embedding, in the target model. */
  lemma EmbedBqmPlaces<V, T>(source: BQM<V>, embedding: Embedding<V, T>, adj: Adjacency<T>, cs: real)
    requires Valid(source) && ChainsAreSets(embedding) && Loopless(adj)
    requires EmbedBqm(source, embedding, adj, cs).Ok?
    ensures ChainsResolve(source.linear, embedding, adj)
    ensures forall i, k :: 0 <= i < |source.linear| && 0 <= k < |ChainOf(embedding, adj, source.linear[i].0)| ==>
      ChainOf(embedding, adj, source.linear[i].0)[k] in Keys(EmbedBqm(source, embedding, adj, cs).value.linear)
    ensures forall i :: 0 <= i < |embedding| && |embedding[i].1| == 1 ==>
      embedding[i].1[0] in Keys(EmbedBqm(source, embedding, adj, cs).value.linear)
  {
    var start := AddOffset(Empty<T>(source.vartype), source.offset);
    SmearLinearChecks(source.linear, embedding, adj, start);
    var withLinear := SmearLinear(source.linear, embedding, adj, start).value;
    LinearPassResolves(source, embedding, adj, start);
    var withQuadratic := SmearQuadratic(source.quadratic, embedding, adj, withLinear).value;
    var chains := Values(embedding);
    assert forall i :: 0 <= i < |chains| ==> Distinct(chains[i]);
    assert EmbedBqm(source, embedding, adj, cs).value == AddChainPenalties(chains, adj, cs, withQuadratic);
    forall i, k | 0 <= i < |source.linear| && 0 <= k < |ChainOf(embedding, adj, source.linear[i].0)|
      ensures ChainOf(embedding, adj, source.linear[i].0)[k] in Keys(AddChainPenalties(chains, adj, cs, withQuadratic).linear)
    {
      var t := ChainOf(embedding, adj, source.linear[i].0)[k];
      SmearLinearPlaces(source.linear, embedding, adj, start, t);
      SmearQuadraticKeeps(source.quadratic, embedding, adj, withLinear, t);
      ChainPenaltiesPlaces(chains, adj, cs, withQuadratic, t);
    }
    forall i | 0 <= i < |embedding| && |embedding[i].1| == 1
      ensures embedding[i].1[0] in Keys(AddChainPenalties(chains, adj, cs, withQuadratic).linear)
    {
      ChainPenaltiesPlaces(chains, adj, cs, withQuadratic, embedding[i].1[0]);
    }
  }
}
