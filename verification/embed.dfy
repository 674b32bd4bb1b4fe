/**
 The forward embedding transform `embed_bqm`: a source binary quadratic model
 is rewritten onto a target graph by spreading each variable's linear bias over
 its chain, spreading each quadratic bias over the target edges between the two
 chains, and coupling the nodes of every chain together with a penalty.
 */
module Embed {
  import opened Results
  import opened Dicts
  import opened Bqm

  /** MissingChainError, InvalidNodeError, the ZeroDivisionError an empty
      chain causes, and MissingEdgeError. */
  datatype EmbedError<V> =
    | MissingChain(v: V)
    | InvalidNode(v: V)
    | EmptyChain(v: V)
    | MissingEdge(u: V, v: V)

  /** {s: [t, ...], ...}: each source variable's chain of target nodes. */
  type Embedding<V, T> = Dict<V, seq<T>>

  /** {t: Nt, ...}: each target node's set of neighbours. */
  type Adjacency<T> = map<T, set<T>>

  /** The embedding is a dict, each variable listed once, and its chains are
      sets: no node twice in one chain. */
  predicate ChainsAreSets<V(==), T(==)>(embedding: Embedding<V, T>) {
    && IsDict(embedding)
    && forall i :: 0 <= i < |embedding| ==> Distinct(embedding[i].1)
  }

  /** The target graph has no self-loops: no node is among its own neighbours. */
  predicate Loopless<T(==)>(adj: Adjacency<T>) {
    forall t :: t in adj ==> t !in adj[t]
  }

  /** A target edge joins s and t, in either direction of the adjacency. */
  predicate Adjacent<T(==)>(adj: Adjacency<T>, s: T, t: T) {
    (s in adj && t in adj[s]) || (t in adj && s in adj[t])
  }

  /** The checks the linear pass makes on v before smearing its bias: the
      chain lookup, every node in the target graph, and a non-empty chain. */
  function CheckChain<V(==), T(==)>(embedding: Embedding<V, T>, adj: Adjacency<T>, v: V): (r: Result<seq<T>, EmbedError<V>>)
    ensures r.Ok? ==> Lookup(embedding, v) == Some(r.value) && |r.value| > 0
    ensures r.Ok? ==> forall i :: 0 <= i < |r.value| ==> r.value[i] in adj
    ensures r == Err(MissingChain(v)) <==> Lookup(embedding, v).None?
    ensures r == Err(InvalidNode(v)) <==>
      Lookup(embedding, v).Some? && exists t :: t in Lookup(embedding, v).value && t !in adj
    ensures r == Err(EmptyChain(v)) <==>
      Lookup(embedding, v) == Some([])
    ensures r.Err? ==> r.error.v == v && !r.error.MissingEdge?
  {
    match Lookup(embedding, v)
    case None => Err(MissingChain(v))
    case Some(chain) =>
      if exists t :: t in chain && t !in adj then Err(InvalidNode(v))
      else if |chain| == 0 then Err(EmptyChain(v))
      else Ok(chain)
  }

  /** v passes the linear pass's checks. */
  predicate Resolves<V(==), T(==)>(embedding: Embedding<V, T>, adj: Adjacency<T>, v: V) {
    CheckChain(embedding, adj, v).Ok?
  }

  /** Every source variable passes the linear pass's checks. */
  predicate ChainsResolve<V(==), T(==)>(linear: Dict<V, real>, embedding: Embedding<V, T>, adj: Adjacency<T>) {
    forall i :: 0 <= i < |linear| ==> Resolves(embedding, adj, linear[i].0)
  }

  /** The chain of a variable that passed the checks. */
  function ChainOf<V(==), T(==)>(embedding: Embedding<V, T>, adj: Adjacency<T>, v: V): (chain: seq<T>)
    requires Resolves(embedding, adj, v)
    ensures |chain| > 0 && forall i :: 0 <= i < |chain| ==> chain[i] in adj
  {
    CheckChain(embedding, adj, v).value
  }

  /** Linear pass (lines 115-127): for each source variable in order, check
      its chain, then add bias / len(chain) to every node of the chain. */
  function SmearLinear<V(==), T(==)>(linear: Dict<V, real>, embedding: Embedding<V, T>, adj: Adjacency<T>, m: BQM<T>)
    : (r: Result<BQM<T>, EmbedError<V>>)
    ensures r.Ok? ==> r.value.vartype == m.vartype && r.value.offset == m.offset && r.value.quadratic == m.quadratic
    decreases |linear|
  {
    if |linear| == 0 then Ok(m)
    else
      var (v, bias) := linear[0];
      match CheckChain(embedding, adj, v)
      case Err(e) => Err(e)
      case Ok(chain) => SmearLinear(linear[1..], embedding, adj, AddVariables(m, chain, bias / |chain| as real))
  }

  /** The pairs (s, t) with s in `chain` and t in `targets` such that s is a neighbour of t. */
  function Partners<T(==)>(s: T, targets: seq<T>, adj: Adjacency<T>): (pairs: seq<(T, T)>)
    requires forall i :: 0 <= i < |targets| ==> targets[i] in adj
    ensures forall i :: 0 <= i < |pairs| ==> pairs[i].0 == s && pairs[i].1 in targets && s in adj[pairs[i].1]
  {
    if |targets| == 0 then []
    else (if s in adj[targets[0]] then [(s, targets[0])] else []) + Partners(s, targets[1..], adj)
  }

  /** `{(s, t) for s in chain_u for t in chain_v if s in target_adjacency[t]}` (line 132). */
  function Interactions<T(==)>(cu: seq<T>, cv: seq<T>, adj: Adjacency<T>): (pairs: seq<(T, T)>)
    requires forall i :: 0 <= i < |cv| ==> cv[i] in adj
    ensures forall i :: 0 <= i < |pairs| ==> pairs[i].0 in cu && pairs[i].1 in cv && pairs[i].0 in adj[pairs[i].1]
  {
    if |cu| == 0 then [] else Partners(cu[0], cv, adj) + Interactions(cu[1..], cv, adj)
  }

  /** The endpoints of every quadratic term passed the linear pass's checks. */
  predicate TermsResolve<V(==), T(==)>(quadratic: Dict<(V, V), real>, embedding: Embedding<V, T>, adj: Adjacency<T>) {
    forall i :: 0 <= i < |quadratic| ==>
      Resolves(embedding, adj, quadratic[i].0.0) && Resolves(embedding, adj, quadratic[i].0.1)
  }

  /** The target edges available to the source interaction (u, v). */
  function Available<V(==), T(==)>(embedding: Embedding<V, T>, adj: Adjacency<T>, u: V, v: V): seq<(T, T)>
    requires Resolves(embedding, adj, u) && Resolves(embedding, adj, v)
  {
    Interactions(ChainOf(embedding, adj, u), ChainOf(embedding, adj, v), adj)
  }

  /** Some target edge joins u's chain to v's chain: the set built at line
      132 is non-empty. */
  predicate Linked<V(==), T(==)>(embedding: Embedding<V, T>, adj: Adjacency<T>, u: V, v: V) {
    && Resolves(embedding, adj, u)
    && Resolves(embedding, adj, v)
    && exists s, t :: s in ChainOf(embedding, adj, u) && t in ChainOf(embedding, adj, v) && s in adj[t]
  }

  /** Quadratic pass (lines 131-139): for each source interaction in order,
      fail if no target edge joins the two chains, else add bias / count to
      every available edge. */
  function SmearQuadratic<V(==), T(==)>(quadratic: Dict<(V, V), real>, embedding: Embedding<V, T>, adj: Adjacency<T>, m: BQM<T>)
    : (r: Result<BQM<T>, EmbedError<V>>)
    requires TermsResolve(quadratic, embedding, adj)
    requires Loopless(adj)
    ensures r.Ok? ==> r.value.vartype == m.vartype && r.value.offset == m.offset
    decreases |quadratic|
  {
    if |quadratic| == 0 then Ok(m)
    else
      var (u, v) := quadratic[0].0;
      var pairs := Available(embedding, adj, u, v);
      if |pairs| == 0 then Err(MissingEdge(u, v))
      else SmearQuadratic(quadratic[1..], embedding, adj, AddInteractions(m, pairs, quadratic[0].1 / |pairs| as real))
  }

  /** The pairs (s, t) for t in `rest` joined to s by a target edge. */
  function Joined<T(==)>(s: T, rest: seq<T>, adj: Adjacency<T>): (edges: seq<(T, T)>)
    ensures forall i :: 0 <= i < |edges| ==> edges[i].0 == s && edges[i].1 in rest && Adjacent(adj, s, edges[i].1)
  {
    if |rest| == 0 then []
    else (if Adjacent(adj, s, rest[0]) then [(s, rest[0])] else []) + Joined(s, rest[1..], adj)
  }

  /** The target edges inside a chain, each pair of nodes once, in chain order. */
  function ChainEdges<T(==)>(chain: seq<T>, adj: Adjacency<T>): (edges: seq<(T, T)>)
    ensures forall i :: 0 <= i < |edges| ==>
      edges[i].0 in chain && edges[i].1 in chain && Adjacent(adj, edges[i].0, edges[i].1)
    ensures Distinct(chain) ==> forall i :: 0 <= i < |edges| ==> edges[i].0 != edges[i].1
  {
    if |chain| == 0 then []
    else
      assert Distinct(chain) ==> chain[0] !in chain[1..] && Distinct(chain[1..]) by {
        if Distinct(chain) {
          DistinctTail(chain);
        }
      }
      Joined(chain[0], chain[1..], adj) + ChainEdges(chain[1..], adj)
  }

  /** The dict giving every key of `keys` the same bias `b`. */
  function WithBias<K>(keys: seq<K>, b: real): (d: Dict<K, real>)
    ensures Keys(d) == keys
    ensures forall i :: 0 <= i < |d| ==> d[i].1 == b
  {
    if |keys| == 0 then [] else [(keys[0], b)] + WithBias(keys[1..], b)
  }

  /** `chain_to_quadratic(chain, target_adjacency, chain_strength)`: a SPIN
      coupling of -chain_strength on every edge inside the chain. */
  function ChainToQuadratic<T(==)>(chain: seq<T>, adj: Adjacency<T>, chainStrength: real): (q: Dict<(T, T), real>)
  {
    WithBias(ChainEdges(chain, adj), -chainStrength)
  }

  /** One iteration of the chain loop (lines 141-155): a chain of one node
      is added with zero bias; a longer chain gets its SPIN penalty couplings
      and the offset that makes an unbroken chain cost nothing. */
  function PenalizeChain<T(==)>(m: BQM<T>, chain: seq<T>, adj: Adjacency<T>, chainStrength: real): (r: BQM<T>)
    requires Distinct(chain)
    ensures r.vartype == m.vartype
  {
    if |chain| == 1 then AddVariable(m, chain[0], 0.0)
    else
      var q := ChainToQuadratic(chain, adj, chainStrength);
      AddOffset(AddInteractionsFrom(m, q, Spin), -Total(q))
  }

  /** The chain pass: every chain of the embedding, in order. */
  function AddChainPenalties<T(==)>(chains: seq<seq<T>>, adj: Adjacency<T>, chainStrength: real, m: BQM<T>): (r: BQM<T>)
    requires forall i :: 0 <= i < |chains| ==> Distinct(chains[i])
    ensures r.vartype == m.vartype
    decreases |chains|
  {
    if |chains| == 0 then m
    else AddChainPenalties(chains[1..], adj, chainStrength, PenalizeChain(m, chains[0], adj, chainStrength))
  }

  /** `embed_bqm(source_bqm, embedding, target_adjacency, chain_strength)`
      with `smear_vartype=None`. */
  function EmbedBqm<V(==), T(==)>(source: BQM<V>, embedding: Embedding<V, T>, adj: Adjacency<T>, chainStrength: real)
    : (r: Result<BQM<T>, EmbedError<V>>)
    requires Valid(source)
    requires ChainsAreSets(embedding)
    requires Loopless(adj)
    ensures r.Ok? ==> r.value.vartype == source.vartype
  {
    var start := AddOffset(Empty(source.vartype), source.offset);
    match SmearLinear(source.linear, embedding, adj, start)
    case Err(e) => Err(e)
    case Ok(withLinear) =>
      LinearPassResolves(source, embedding, adj, start);
      match SmearQuadratic(source.quadratic, embedding, adj, withLinear)
      case Err(e) => Err(e)
      case Ok(withQuadratic) =>
        Ok(AddChainPenalties(Values(embedding), adj, chainStrength, withQuadratic))
  }

  /** A linear pass that succeeds has checked every variable of the model. */
  lemma {:induction false} SmearLinearChecks<V, T>(linear: Dict<V, real>, embedding: Embedding<V, T>, adj: Adjacency<T>, m: BQM<T>)
    ensures SmearLinear(linear, embedding, adj, m).Ok? <==> ChainsResolve(linear, embedding, adj)
  {
    if |linear| > 0 {
      match CheckChain(embedding, adj, linear[0].0)
      case Err(_) =>
      case Ok(chain) =>
        SmearLinearChecks(linear[1..], embedding, adj, AddVariables(m, chain, linear[0].1 / |chain| as real));
        assert forall i :: 1 <= i < |linear| ==> linear[i] == linear[1..][i - 1];
    }
  }

  lemma LinearPassResolves<V, T>(source: BQM<V>, embedding: Embedding<V, T>, adj: Adjacency<T>, start: BQM<T>)
    requires Valid(source)
    requires SmearLinear(source.linear, embedding, adj, start).Ok?
    ensures TermsResolve(source.quadratic, embedding, adj)
  {
    SmearLinearChecks(source.linear, embedding, adj, start);
    forall i | 0 <= i < |source.quadratic|
      ensures Resolves(embedding, adj, source.quadratic[i].0.0) && Resolves(embedding, adj, source.quadratic[i].0.1)
    {
      assert ValidPair(source, source.quadratic[i].0);
      var p := source.quadratic[i].0;
      var j :| 0 <= j < |source.linear| && Keys(source.linear)[j] == p.0;
      var k :| 0 <= k < |source.linear| && Keys(source.linear)[k] == p.1;
    }
  }
}
