/**
 When `embed_bqm` fails and with which error: the linear pass reports the first
 source variable whose chain fails a check, the quadratic pass the first
 interaction whose chains share no target edge, and the transform succeeds
 exactly when neither happens.
 */
module EmbedErrors {
  import opened Results
  import opened Dicts
  import opened Bqm
  import opened Embed
  import opened Edges

  /** Every source interaction has at least one target edge between its chains. */
  predicate EdgesAvailable<V(==), T(==)>(quadratic: Dict<(V, V), real>, embedding: Embedding<V, T>, adj: Adjacency<T>) {
    forall i :: 0 <= i < |quadratic| ==> Linked(embedding, adj, quadratic[i].0.0, quadratic[i].0.1)
  }

  lemma {:induction false} SmearLinearFirstError<V, T>(linear: Dict<V, real>, embedding: Embedding<V, T>, adj: Adjacency<T>, m: BQM<T>, i: nat)
    requires i < |linear|
    requires forall j :: 0 <= j < i ==> Resolves(embedding, adj, linear[j].0)
    requires !Resolves(embedding, adj, linear[i].0)
    ensures SmearLinear(linear, embedding, adj, m) == Err(CheckChain(embedding, adj, linear[i].0).error)
  {
    if i > 0 {
      var chain := ChainOf(embedding, adj, linear[0].0);
      var next := AddVariables(m, chain, linear[0].1 / |chain| as real);
      assert forall j :: 0 <= j < i - 1 ==> linear[1..][j] == linear[j + 1];
      SmearLinearFirstError(linear[1..], embedding, adj, next, i - 1);
    }
  }

  /** The quadratic pass succeeds exactly when every interaction has an available edge. */
  lemma {:induction false} SmearQuadraticSucceeds<V, T>(quadratic: Dict<(V, V), real>, embedding: Embedding<V, T>, adj: Adjacency<T>, m: BQM<T>)
    requires TermsResolve(quadratic, embedding, adj)
    requires Loopless(adj)
    ensures SmearQuadratic(quadratic, embedding, adj, m).Ok? <==> EdgesAvailable(quadratic, embedding, adj)
  {
    if |quadratic| > 0 {
      var (u, v) := quadratic[0].0;
      var pairs := Available(embedding, adj, u, v);
      AvailableLinked(embedding, adj, u, v);
      assert forall j :: 1 <= j < |quadratic| ==> quadratic[j] == quadratic[1..][j - 1];
      if |pairs| > 0 {
        SmearQuadraticSucceeds(quadratic[1..], embedding, adj, AddInteractions(m, pairs, quadratic[0].1 / |pairs| as real));
      }
    }
  }

  /** The quadratic pass reports MissingEdge for the first interaction without an edge. */
  lemma {:induction false} SmearQuadraticFirstError<V, T>(quadratic: Dict<(V, V), real>, embedding: Embedding<V, T>, adj: Adjacency<T>, m: BQM<T>, i: nat)
    requires TermsResolve(quadratic, embedding, adj)
    requires Loopless(adj)
    requires i < |quadratic|
    requires forall j :: 0 <= j < i ==> Linked(embedding, adj, quadratic[j].0.0, quadratic[j].0.1)
    requires !Linked(embedding, adj, quadratic[i].0.0, quadratic[i].0.1)
    ensures SmearQuadratic(quadratic, embedding, adj, m) == Err(MissingEdge(quadratic[i].0.0, quadratic[i].0.1))
  {
    AvailableLinked(embedding, adj, quadratic[0].0.0, quadratic[0].0.1);
    if i > 0 {
      var pairs := Available(embedding, adj, quadratic[0].0.0, quadratic[0].0.1);
      assert forall j :: 0 <= j < |quadratic| - 1 ==> quadratic[1..][j] == quadratic[j + 1];
      SmearQuadraticFirstError(quadratic[1..], embedding, adj, AddInteractions(m, pairs, quadratic[0].1 / |pairs| as real), i - 1);
    }
  }

  /** `embed_bqm` succeeds exactly when every source variable has a valid,
      non-empty chain and every source interaction has a target edge between
      its two chains. */
  lemma EmbedSucceeds<V, T>(source: BQM<V>, embedding: Embedding<V, T>, adj: Adjacency<T>, chainStrength: real)
    requires Valid(source)
    requires ChainsAreSets(embedding)
    requires Loopless(adj)
    ensures EmbedBqm(source, embedding, adj, chainStrength).Ok? <==>
      ChainsResolve(source.linear, embedding, adj) && EdgesAvailable(source.quadratic, embedding, adj)
  {
    var start := AddOffset(Empty<T>(source.vartype), source.offset);
    SmearLinearChecks(source.linear, embedding, adj, start);
    if ChainsResolve(source.linear, embedding, adj) {
      LinearPassResolves(source, embedding, adj, start);
      SmearQuadraticSucceeds(source.quadratic, embedding, adj, SmearLinear(source.linear, embedding, adj, start).value);
    }
  }

  /** The first source variable (in the model's order) whose chain is
      missing, leaves the target graph, or is empty decides the error. */
  lemma EmbedLinearError<V, T>(source: BQM<V>, embedding: Embedding<V, T>, adj: Adjacency<T>, chainStrength: real, i: nat)
    requires Valid(source)
    requires ChainsAreSets(embedding)
    requires Loopless(adj)
    requires i < |source.linear|
    requires forall j :: 0 <= j < i ==> Resolves(embedding, adj, source.linear[j].0)
    requires !Resolves(embedding, adj, source.linear[i].0)
    ensures EmbedBqm(source, embedding, adj, chainStrength) == Err(CheckChain(embedding, adj, source.linear[i].0).error)
  {
    SmearLinearFirstError(source.linear, embedding, adj, AddOffset(Empty<T>(source.vartype), source.offset), i);
  }

  /** Once every chain resolves, the first source interaction (in the
      model's order) with no target edge between its chains raises
      MissingEdge for that interaction. */
  lemma EmbedEdgeError<V, T>(source: BQM<V>, embedding: Embedding<V, T>, adj: Adjacency<T>, chainStrength: real, i: nat)
    requires Valid(source)
    requires ChainsAreSets(embedding)
    requires Loopless(adj)
    requires ChainsResolve(source.linear, embedding, adj)
    requires i < |source.quadratic|
    requires forall j :: 0 <= j < i ==> Linked(embedding, adj, source.quadratic[j].0.0, source.quadratic[j].0.1)
    requires !Linked(embedding, adj, source.quadratic[i].0.0, source.quadratic[i].0.1)
    ensures EmbedBqm(source, embedding, adj, chainStrength) == Err(MissingEdge(source.quadratic[i].0.0, source.quadratic[i].0.1))
  {
    var start := AddOffset(Empty<T>(source.vartype), source.offset);
    SmearLinearChecks(source.linear, embedding, adj, start);
    LinearPassResolves(source, embedding, adj, start);
    SmearQuadraticFirstError(source.quadratic, embedding, adj, SmearLinear(source.linear, embedding, adj, start).value, i);
  }
}
