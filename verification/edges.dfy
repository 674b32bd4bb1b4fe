/**
 The edge lists the transform builds hold every edge they should, each once:
 the set of available interactions built at line 132 lists every target edge
 between two chains, and the chain penalty couples every adjacent pair of
 chain nodes exactly once, in chain order.
 */
module Edges {
  import opened Dicts
  import opened Embed

  /** Every neighbour of s among `targets` is listed. */
  lemma {:induction false} PartnersComplete<T>(s: T, targets: seq<T>, adj: Adjacency<T>, t: T)
    requires forall i :: 0 <= i < |targets| ==> targets[i] in adj
    requires t in targets && s in adj[t]
    ensures (s, t) in Partners(s, targets, adj)
    decreases |targets|
  {
    if targets[0] != t {
      assert t in targets[1..];
      PartnersComplete(s, targets[1..], adj, t);
    }
  }

  /** Every target edge from a node of `cu` to a node of `cv` is listed. */
  lemma {:induction false} InteractionsComplete<T>(cu: seq<T>, cv: seq<T>, adj: Adjacency<T>, s: T, t: T)
    requires forall i :: 0 <= i < |cv| ==> cv[i] in adj
    requires s in cu && t in cv && s in adj[t]
    ensures (s, t) in Interactions(cu, cv, adj)
    decreases |cu|
  {
    if cu[0] == s {
      PartnersComplete(s, cv, adj, t);
    } else {
      assert s in cu[1..];
      InteractionsComplete(cu[1..], cv, adj, s, t);
    }
  }

  lemma {:induction false} PartnersDistinct<T>(s: T, targets: seq<T>, adj: Adjacency<T>)
    requires forall i :: 0 <= i < |targets| ==> targets[i] in adj
    requires Distinct(targets)
    ensures Distinct(Partners(s, targets, adj))
    decreases |targets|
  {
    if |targets| > 0 {
      var head: seq<(T, T)> := if s in adj[targets[0]] then [(s, targets[0])] else [];
      DistinctTail(targets);
      PartnersDistinct(s, targets[1..], adj);
      DistinctConcat(head, Partners(s, targets[1..], adj));
    }
  }

  /** With both chains duplicate-free, no edge is listed twice, so the
      length of the list is the size of the set. */
  lemma {:induction false} InteractionsDistinct<T>(cu: seq<T>, cv: seq<T>, adj: Adjacency<T>)
    requires forall i :: 0 <= i < |cv| ==> cv[i] in adj
    requires Distinct(cu) && Distinct(cv)
    ensures Distinct(Interactions(cu, cv, adj))
    decreases |cu|
  {
    if |cu| > 0 {
      DistinctTail(cu);
      PartnersDistinct(cu[0], cv, adj);
      InteractionsDistinct(cu[1..], cv, adj);
      DistinctConcat(Partners(cu[0], cv, adj), Interactions(cu[1..], cv, adj));
    }
  }

  /** MissingEdge (lines 134-135) is raised exactly when no target edge joins
      the two chains. */
  lemma AvailableLinked<V, T>(embedding: Embedding<V, T>, adj: Adjacency<T>, u: V, v: V)
    requires Resolves(embedding, adj, u) && Resolves(embedding, adj, v)
    ensures |Available(embedding, adj, u, v)| > 0 <==> Linked(embedding, adj, u, v)
  {
    var cu := ChainOf(embedding, adj, u);
    var cv := ChainOf(embedding, adj, v);
    var pairs := Available(embedding, adj, u, v);
    if |pairs| > 0 {
      assert pairs[0].0 in cu && pairs[0].1 in cv && pairs[0].0 in adj[pairs[0].1];
    }
    if Linked(embedding, adj, u, v) {
      var s, t :| s in cu && t in cv && s in adj[t];
      InteractionsComplete(cu, cv, adj, s, t);
    }
  }

  /** Every node of `rest` adjacent to s is paired with it. */
  lemma {:induction false} JoinedComplete<T>(s: T, rest: seq<T>, adj: Adjacency<T>, t: T)
    requires t in rest && Adjacent(adj, s, t)
    ensures (s, t) in Joined(s, rest, adj)
    decreases |rest|
  {
    if rest[0] != t {
      assert t in rest[1..];
      JoinedComplete(s, rest[1..], adj, t);
    }
  }

  lemma {:induction false} JoinedDistinct<T>(s: T, rest: seq<T>, adj: Adjacency<T>)
    requires Distinct(rest)
    ensures Distinct(Joined(s, rest, adj))
    decreases |rest|
  {
    if |rest| > 0 {
      var head: seq<(T, T)> := if Adjacent(adj, s, rest[0]) then [(s, rest[0])] else [];
      DistinctTail(rest);
      JoinedDistinct(s, rest[1..], adj);
      DistinctConcat(head, Joined(s, rest[1..], adj));
    }
  }

  /** Every adjacent pair of chain nodes gets a penalty edge, oriented in
      chain order. */
  lemma {:induction false} ChainEdgesComplete<T>(chain: seq<T>, adj: Adjacency<T>, i: nat, j: nat)
    requires i < j < |chain| && Adjacent(adj, chain[i], chain[j])
    ensures (chain[i], chain[j]) in ChainEdges(chain, adj)
    decreases |chain|
  {
    assert chain[j] == chain[1..][j - 1];
    if i == 0 {
      JoinedComplete(chain[0], chain[1..], adj, chain[j]);
    } else {
      assert chain[i] == chain[1..][i - 1];
      ChainEdgesComplete(chain[1..], adj, i - 1, j - 1);
    }
  }

  /** No penalty edge is oriented against the chain order, so no pair of
      nodes is coupled in both orientations. */
  lemma {:induction false} ChainEdgesForward<T>(chain: seq<T>, adj: Adjacency<T>, i: nat, j: nat)
    requires Distinct(chain) && i < j < |chain|
    ensures (chain[j], chain[i]) !in ChainEdges(chain, adj)
    decreases |chain|
  {
    DistinctTail(chain);
    assert chain[j] == chain[1..][j - 1];
    assert (chain[j], chain[i]) !in Joined(chain[0], chain[1..], adj);
    if i > 0 {
      assert chain[i] == chain[1..][i - 1];
      ChainEdgesForward(chain[1..], adj, i - 1, j - 1);
    }
  }

  /** In a duplicate-free chain no penalty edge is listed twice. */
  lemma {:induction false} ChainEdgesDistinct<T>(chain: seq<T>, adj: Adjacency<T>)
    requires Distinct(chain)
    ensures Distinct(ChainEdges(chain, adj))
    decreases |chain|
  {
    if |chain| > 0 {
      DistinctTail(chain);
      JoinedDistinct(chain[0], chain[1..], adj);
      ChainEdgesDistinct(chain[1..], adj);
      DistinctConcat(Joined(chain[0], chain[1..], adj), ChainEdges(chain[1..], adj));
    }
  }
}
