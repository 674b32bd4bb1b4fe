/**
 The model `embed_bqm` returns is a well-formed dimod model: every pass adds
 variables and interactions only through dimod's own operations, and those
 keep each variable and each interaction stored once, never a self-loop.
 */
module EmbedValid {
  import opened Dicts
  import opened Bqm
  import opened BqmFacts
  import opened Embed

  lemma {:induction false} ValidSmearLinear<V, T>(linear: Dict<V, real>, embedding: Embedding<V, T>, adj: Adjacency<T>, m: BQM<T>)
    requires Valid(m)
    requires SmearLinear(linear, embedding, adj, m).Ok?
    ensures Valid(SmearLinear(linear, embedding, adj, m).value)
    decreases |linear|
  {
    if |linear| > 0 {
      var chain := CheckChain(embedding, adj, linear[0].0).value;
      var b := linear[0].1 / |chain| as real;
      ValidAddVariables(m, chain, b);
      ValidSmearLinear(linear[1..], embedding, adj, AddVariables(m, chain, b));
    }
  }

  lemma {:induction false} ValidSmearQuadratic<V, T>(quadratic: Dict<(V, V), real>, embedding: Embedding<V, T>, adj: Adjacency<T>, m: BQM<T>)
    requires TermsResolve(quadratic, embedding, adj)
    requires Loopless(adj)
    requires Valid(m)
    requires SmearQuadratic(quadratic, embedding, adj, m).Ok?
    ensures Valid(SmearQuadratic(quadratic, embedding, adj, m).value)
    decreases |quadratic|
  {
    if |quadratic| > 0 {
      var pairs := Available(embedding, adj, quadratic[0].0.0, quadratic[0].0.1);
      var b := quadratic[0].1 / |pairs| as real;
      assert TermsResolve(quadratic[1..], embedding, adj) by {
        assert forall j :: 0 <= j < |quadratic| - 1 ==> quadratic[1..][j] == quadratic[j + 1];
      }
      ValidAddInteractions(m, pairs, b);
      ValidSmearQuadratic(quadratic[1..], embedding, adj, AddInteractions(m, pairs, b));
    }
  }

  lemma ValidPenalizeChain<T>(m: BQM<T>, chain: seq<T>, adj: Adjacency<T>, cs: real)
    requires Valid(m) && Distinct(chain)
    ensures Valid(PenalizeChain(m, chain, adj, cs))
  {
    if |chain| == 1 {
      ValidAddVariable(m, chain[0], 0.0);
    } else {
      var q := ChainToQuadratic(chain, adj, cs);
      assert forall i :: 0 <= i < |q| ==> q[i].0 == Keys(q)[i];
      ValidAddInteractionsFrom(m, q, Spin);
    }
  }

  lemma {:induction false} ValidChainPenalties<T>(chains: seq<seq<T>>, adj: Adjacency<T>, cs: real, m: BQM<T>)
    requires forall i :: 0 <= i < |chains| ==> Distinct(chains[i])
    requires Valid(m)
    ensures Valid(AddChainPenalties(chains, adj, cs, m))
    decreases |chains|
  {
    if |chains| > 0 {
      ValidPenalizeChain(m, chains[0], adj, cs);
      ValidChainPenalties(chains[1..], adj, cs, PenalizeChain(m, chains[0], adj, cs));
    }
  }

  /** `embed_bqm` returns a model dimod accepts: no variable or interaction
      stored twice, no interaction stored in both orientations, and every
      interaction between two distinct variables of the model. */
  lemma EmbedBqmValid<V, T>(source: BQM<V>, embedding: Embedding<V, T>, adj: Adjacency<T>, cs: real)
    requires Valid(source) && ChainsAreSets(embedding) && Loopless(adj)
    requires EmbedBqm(source, embedding, adj, cs).Ok?
    ensures Valid(EmbedBqm(source, embedding, adj, cs).value)
  {
    var start := AddOffset(Empty<T>(source.vartype), source.offset);
    var withLinear := SmearLinear(source.linear, embedding, adj, start).value;
    ValidSmearLinear(source.linear, embedding, adj, start);
    LinearPassResolves(source, embedding, adj, start);
    ValidSmearQuadratic(source.quadratic, embedding, adj, withLinear);
    var withQuadratic := SmearQuadratic(source.quadratic, embedding, adj, withLinear).value;
    assert forall i :: 0 <= i < |embedding| ==> Distinct(Values(embedding)[i]);
    ValidChainPenalties(Values(embedding), adj, cs, withQuadratic);
  }
}
