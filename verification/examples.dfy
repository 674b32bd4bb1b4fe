/**
 The two worked examples of the embed_bqm documentation: the triangle K3
 embedded on the 4-cycle with `c` stretched over nodes 2 and 3, once as an
 Ising model and once as a QUBO.
 */
module Examples {
  import opened Results
  import opened Dicts
  import opened Bqm
  import opened Embed
  import opened BqmFacts

  /** `nx.cycle_graph(4)`. */
  const Square: Adjacency<int> := map[0 := {1, 3}, 1 := {0, 2}, 2 := {1, 3}, 3 := {0, 2}]

  /** `{'a': {0}, 'b': {1}, 'c': {2, 3}}`. */
  const Stretched: Embedding<string, int> := [("a", [0]), ("b", [1]), ("c", [2, 3])]

  /** The triangle with unit couplings and zero fields, in the given vartype. */
  function Triangle(vt: Vartype): BQM<string> {
    BQM([("a", 0.0), ("b", 0.0), ("c", 0.0)], [(("a", "b"), 1.0), (("b", "c"), 1.0), (("a", "c"), 1.0)], 0.0, vt)
  }

  /** The four square nodes, all with bias 0.0, and the couplings `q`. */
  function WithCouplings(vt: Vartype, q: Dict<(int, int), real>): BQM<int> {
    BQM([(0, 0.0), (1, 0.0), (2, 0.0), (3, 0.0)], q, 0.0, vt)
  }

  /** The target model after the linear pass: every chain node present with
      bias 0.0, in chain order. */
  function AfterLinear(vt: Vartype): BQM<int> {
    WithCouplings(vt, [])
  }

  /** The target model after the quadratic pass: each source coupling lands
      on the one square edge between its chains. */
  function AfterQuadratic(vt: Vartype): BQM<int> {
    WithCouplings(vt, [((0, 1), 1.0), ((1, 2), 1.0), ((0, 3), 1.0)])
  }

  lemma SquareLoopless()
    ensures Loopless(Square)
  {
    forall t | t in Square
      ensures t !in Square[t]
    {
      assert t == 0 || t == 1 || t == 2 || t == 3;
    }
  }

  /** The three chains pass the linear pass's checks. */
  lemma ChainChecks()
    ensures CheckChain(Stretched, Square, "a") == Ok([0])
    ensures CheckChain(Stretched, Square, "b") == Ok([1])
    ensures CheckChain(Stretched, Square, "c") == Ok([2, 3])
  {
  }

  /** The share of a zero bias over a chain of one or two nodes. */
  lemma ZeroShares()
    ensures 0.0 / 1 as real == 0.0 && 0.0 / 2 as real == 0.0
  {
  }

  lemma NodeOfA(vt: Vartype)
    ensures AddVariables(AddOffset(Empty<int>(vt), 0.0), [0], 0.0) == BQM([(0, 0.0)], [], 0.0, vt)
  {
  }

  lemma NodeOfB(vt: Vartype)
    ensures AddVariables(BQM([(0, 0.0)], [], 0.0, vt), [1], 0.0) == BQM([(0, 0.0), (1, 0.0)], [], 0.0, vt)
  {
    var m := BQM([(0, 0.0)], [], 0.0, vt);
    assert Keys(m.linear) == [0];
    AddToAbsent(m.linear, 1, 0.0);
  }

  lemma NodesOfC(vt: Vartype)
    ensures AddVariables(BQM([(0, 0.0), (1, 0.0)], [], 0.0, vt), [2, 3], 0.0) == AfterLinear(vt)
  {
    var m := BQM([(0, 0.0), (1, 0.0)], [], 0.0, vt);
    assert Keys(m.linear) == [0, 1];
    AddToAbsent(m.linear, 2, 0.0);
    var m' := BQM([(0, 0.0), (1, 0.0), (2, 0.0)], [], 0.0, vt);
    assert AddVariable(m, 2, 0.0) == m';
    assert Keys(m'.linear) == [0, 1, 2];
    AddToAbsent(m'.linear, 3, 0.0);
    assert [2, 3][1..] == [3];
  }

  lemma LinearPass(vt: Vartype)
    ensures SmearLinear(Triangle(vt).linear, Stretched, Square, AddOffset(Empty(vt), 0.0)) == Ok(AfterLinear(vt))
  {
    ChainChecks();
    ZeroShares();
    NodeOfA(vt);
    NodeOfB(vt);
    NodesOfC(vt);
  }

  /** The square edges between the chains of each source coupling. */
  lemma Availability()
    ensures Resolves(Stretched, Square, "a") && Resolves(Stretched, Square, "b") && Resolves(Stretched, Square, "c")
    ensures Available(Stretched, Square, "a", "b") == [(0, 1)]
    ensures Available(Stretched, Square, "b", "c") == [(1, 2)]
    ensures Available(Stretched, Square, "a", "c") == [(0, 3)]
  {
    ChainChecks();
  }

  /** Every square node is a variable of the model, whatever the couplings. */
  lemma SquareNodes(vt: Vartype, q: Dict<(int, int), real>)
    ensures Keys(WithCouplings(vt, q).linear) == [0, 1, 2, 3]
  {
  }

  /** The share of a unit bias over one edge. */
  lemma UnitShare()
    ensures 1.0 / 1 as real == 1.0
  {
  }

  lemma FirstCoupling(vt: Vartype)
    ensures AddInteractions(AfterLinear(vt), [(0, 1)], 1.0) == WithCouplings(vt, [((0, 1), 1.0)])
  {
    var m := AfterLinear(vt);
    SquareNodes(vt, []);
    AddOneInteraction(m, 0, 1, 1.0);
  }

  lemma SecondFresh()
    ensures (1, 2) !in Keys([((0, 1), 1.0)]) && (2, 1) !in Keys([((0, 1), 1.0)])
    ensures [((0, 1), 1.0)] + [((1, 2), 1.0)] == [((0, 1), 1.0), ((1, 2), 1.0)]
  {
  }

  lemma SecondCoupling(vt: Vartype)
    ensures AddInteractions(WithCouplings(vt, [((0, 1), 1.0)]), [(1, 2)], 1.0)
         == WithCouplings(vt, [((0, 1), 1.0), ((1, 2), 1.0)])
  {
    var m := WithCouplings(vt, [((0, 1), 1.0)]);
    SquareNodes(vt, [((0, 1), 1.0)]);
    SecondFresh();
    AddOneInteraction(m, 1, 2, 1.0);
  }

  lemma ThirdFresh()
    ensures (0, 3) !in Keys([((0, 1), 1.0), ((1, 2), 1.0)]) && (3, 0) !in Keys([((0, 1), 1.0), ((1, 2), 1.0)])
    ensures [((0, 1), 1.0), ((1, 2), 1.0)] + [((0, 3), 1.0)] == [((0, 1), 1.0), ((1, 2), 1.0), ((0, 3), 1.0)]
  {
  }

  lemma ThirdCoupling(vt: Vartype)
    ensures AddInteractions(WithCouplings(vt, [((0, 1), 1.0), ((1, 2), 1.0)]), [(0, 3)], 1.0)
         == AfterQuadratic(vt)
  {
    var m := WithCouplings(vt, [((0, 1), 1.0), ((1, 2), 1.0)]);
    SquareNodes(vt, [((0, 1), 1.0), ((1, 2), 1.0)]);
    ThirdFresh();
    AddOneInteraction(m, 0, 3, 1.0);
  }

  /** Every coupling of the triangle, and of each of its suffixes, has
      resolvable chains at both ends. */
  lemma TriangleResolves(vt: Vartype)
    ensures TermsResolve(Triangle(vt).quadratic, Stretched, Square)
    ensures TermsResolve(Triangle(vt).quadratic[1..], Stretched, Square)
    ensures TermsResolve(Triangle(vt).quadratic[2..], Stretched, Square)
  {
    var q := Triangle(vt).quadratic;
    Availability();
    forall i | 0 <= i < |q|
      ensures Resolves(Stretched, Square, q[i].0.0) && Resolves(Stretched, Square, q[i].0.1)
    {
      assert i == 0 || i == 1 || i == 2;
    }
  }

  lemma QuadraticPass(vt: Vartype)
    ensures TermsResolve(Triangle(vt).quadratic, Stretched, Square)
    ensures SmearQuadratic(Triangle(vt).quadratic, Stretched, Square, AfterLinear(vt)) == Ok(AfterQuadratic(vt))
  {
    var q := Triangle(vt).quadratic;
    SquareLoopless();
    Availability();
    TriangleResolves(vt);
    var q1 := q[1..];
    var q2 := q[2..];
    assert q1[1..] == q2;
    UnitShare();
    FirstCoupling(vt);
    SecondCoupling(vt);
    ThirdCoupling(vt);
    var m1 := WithCouplings(vt, [((0, 1), 1.0)]);
    var m2 := WithCouplings(vt, [((0, 1), 1.0), ((1, 2), 1.0)]);
    assert SmearQuadratic(q2, Stretched, Square, m2) == Ok(AfterQuadratic(vt));
    assert SmearQuadratic(q1, Stretched, Square, m1) == Ok(AfterQuadratic(vt));
  }

  lemma TriangleValid(vt: Vartype)
    ensures Valid(Triangle(vt)) && ChainsAreSets(Stretched) && Loopless(Square)
  {
    TriangleKeys(vt);
    TrianglePairs(vt);
    StretchedSets();
    SquareLoopless();
  }

  lemma TriangleKeys(vt: Vartype)
    ensures Keys(Triangle(vt).linear) == ["a", "b", "c"]
    ensures Keys(Triangle(vt).quadratic) == [("a", "b"), ("b", "c"), ("a", "c")]
  {
  }

  lemma TrianglePairs(vt: Vartype)
    requires Keys(Triangle(vt).linear) == ["a", "b", "c"]
    requires Keys(Triangle(vt).quadratic) == [("a", "b"), ("b", "c"), ("a", "c")]
    ensures forall i :: 0 <= i < |Triangle(vt).quadratic| ==> ValidPair(Triangle(vt), Triangle(vt).quadratic[i].0)
  {
    var m := Triangle(vt);
    forall i | 0 <= i < |m.quadratic|
      ensures ValidPair(m, m.quadratic[i].0)
    {
      assert i == 0 || i == 1 || i == 2;
    }
  }

  lemma StretchedSets()
    ensures ChainsAreSets(Stretched)
  {
    assert Keys(Stretched) == ["a", "b", "c"];
    forall i | 0 <= i < |Stretched|
      ensures Distinct(Stretched[i].1)
    {
      assert i == 0 || i == 1 || i == 2;
    }
  }

  /** The chains in embedding order. */
  lemma ChainValues()
    ensures Values(Stretched) == [[0], [1], [2, 3]]
  {
  }

  /** The one penalty edge of the chain of `c`. */
  lemma ChainOfC()
    ensures ChainEdges([2, 3], Square) == [(2, 3)]
    ensures ChainToQuadratic([2, 3], Square, 1.0) == [((2, 3), -1.0)]
  {
    assert Adjacent(Square, 2, 3);
    assert ChainEdges([3], Square) == [];
  }

  /** The singleton chains only re-add their node with bias 0.0. */
  lemma Singletons(vt: Vartype)
    ensures AddChainPenalties([[0], [1], [2, 3]], Square, 1.0, AfterQuadratic(vt))
         == AddChainPenalties([[2, 3]], Square, 1.0, AfterQuadratic(vt))
  {
    var m := AfterQuadratic(vt);
    SquareNodes(vt, m.quadratic);
    AddZeroPresent(m, 0);
    AddZeroPresent(m, 1);
    assert [[0], [1], [2, 3]][1..] == [[1], [2, 3]];
    assert [[1], [2, 3]][1..] == [[2, 3]];
  }

  lemma PenaltyTotal()
    ensures Total([((2, 3), -1.0)]) == -1.0
  {
  }

  /** One-entry chain pass, for any model. */
  lemma OneChain<T>(m: BQM<T>, chain: seq<T>, adj: Adjacency<T>, q: Dict<(T, T), real>)
    requires Distinct(chain) && |chain| > 1 && ChainToQuadratic(chain, adj, 1.0) == q
    requires |q| == 1 && q[0].0.0 != q[0].0.1
    ensures AddChainPenalties([chain], adj, 1.0, m)
         == AddOffset(AddInteraction(m, q[0].0.0, q[0].0.1, q[0].1, Spin), -Total(q))
  {
    assert [chain][1..] == [];
    assert q[1..] == [];
    var m1 := AddInteraction(m, q[0].0.0, q[0].0.1, q[0].1, Spin);
    assert AddInteractionsFrom(m, q, Spin) == AddInteractionsFrom(m1, [], Spin) == m1;
    assert PenalizeChain(m, chain, adj, 1.0) == AddOffset(m1, -Total(q));
  }

  /** The chain edge (2, 3) is not yet coupled in either orientation. */
  lemma ChainFresh(b: real)
    ensures (2, 3) !in Keys(AfterQuadratic(Spin).quadratic) && (3, 2) !in Keys(AfterQuadratic(Spin).quadratic)
    ensures AfterQuadratic(Spin).quadratic == AfterQuadratic(Binary).quadratic
    ensures AfterQuadratic(Spin).quadratic + [((2, 3), b)]
         == [((0, 1), 1.0), ((1, 2), 1.0), ((0, 3), 1.0), ((2, 3), b)]
  {
  }

  lemma SpinChainCoupling()
    ensures AddInteraction(AfterQuadratic(Spin), 2, 3, -1.0, Spin)
         == BQM([(0, 0.0), (1, 0.0), (2, 0.0), (3, 0.0)],
                [((0, 1), 1.0), ((1, 2), 1.0), ((0, 3), 1.0), ((2, 3), -1.0)],
                0.0, Spin)
  {
    var m := AfterQuadratic(Spin);
    SquareNodes(Spin, m.quadratic);
    ChainFresh(-1.0);
    AddNewCoupling(m, 2, 3, -1.0);
  }

  /** The BINARY reading of the chain coupling first moves -1.0 into the
      offset and 2.0 onto each of the chain's nodes. */
  lemma BinaryChainFields()
    ensures AddVariable(AddVariable(AddOffset(AfterQuadratic(Binary), -1.0), 2, 2.0), 3, 2.0)
         == BQM([(0, 0.0), (1, 0.0), (2, 2.0), (3, 2.0)], AfterQuadratic(Binary).quadratic, -1.0, Binary)
  {
    var m := AddOffset(AfterQuadratic(Binary), -1.0);
    assert m.linear == [(0, 0.0), (1, 0.0), (2, 0.0), (3, 0.0)];
    assert AddVariable(m, 2, 2.0).linear == [(0, 0.0), (1, 0.0), (2, 2.0), (3, 0.0)];
  }

  lemma BinaryNodes()
    ensures Keys([(0, 0.0), (1, 0.0), (2, 2.0), (3, 2.0)]) == [0, 1, 2, 3]
  {
  }

  lemma BinaryChainCoupling()
    ensures AddInteraction(AfterQuadratic(Binary), 2, 3, -1.0, Spin)
         == BQM([(0, 0.0), (1, 0.0), (2, 2.0), (3, 2.0)],
                [((0, 1), 1.0), ((1, 2), 1.0), ((0, 3), 1.0), ((2, 3), -4.0)],
                -1.0, Binary)
  {
    var m := AfterQuadratic(Binary);
    var c := 2.0;
    var b4 := -4.0;
    UnfoldSpinIntoBinary(m, 2, 3, -1.0, c, b4);
    BinaryChainFields();
    var m1 := BQM([(0, 0.0), (1, 0.0), (2, 2.0), (3, 2.0)], m.quadratic, -1.0, Binary);
    BinaryNodes();
    ChainFresh(b4);
    AddNewCoupling(m1, 2, 3, b4);
  }

  lemma IsingChain()
    ensures AddChainPenalties([[2, 3]], Square, 1.0, AfterQuadratic(Spin))
         == BQM([(0, 0.0), (1, 0.0), (2, 0.0), (3, 0.0)],
                [((0, 1), 1.0), ((1, 2), 1.0), ((0, 3), 1.0), ((2, 3), -1.0)],
                1.0, Spin)
  {
    ChainOfC();
    PenaltyTotal();
    OneChain(AfterQuadratic(Spin), [2, 3], Square, [((2, 3), -1.0)]);
    SpinChainCoupling();
  }

  lemma BinaryChain()
    ensures AddChainPenalties([[2, 3]], Square, 1.0, AfterQuadratic(Binary))
         == BQM([(0, 0.0), (1, 0.0), (2, 2.0), (3, 2.0)],
                [((0, 1), 1.0), ((1, 2), 1.0), ((0, 3), 1.0), ((2, 3), -4.0)],
                0.0, Binary)
  {
    ChainOfC();
    PenaltyTotal();
    OneChain(AfterQuadratic(Binary), [2, 3], Square, [((2, 3), -1.0)]);
    BinaryChainCoupling();
  }

  /** The Ising example: unit couplings on the three square edges the
      triangle uses and -1.0, the chain coupling, on (2, 3); the offset
      gains the chain strength back. */
  lemma IsingExample()
    ensures Valid(Triangle(Spin)) && ChainsAreSets(Stretched) && Loopless(Square)
    ensures EmbedBqm(Triangle(Spin), Stretched, Square, 1.0)
         == Ok(BQM([(0, 0.0), (1, 0.0), (2, 0.0), (3, 0.0)],
                   [((0, 1), 1.0), ((1, 2), 1.0), ((0, 3), 1.0), ((2, 3), -1.0)],
                   1.0, Spin))
  {
    TriangleValid(Spin);
    LinearPass(Spin);
    QuadraticPass(Spin);
    ChainValues();
    Singletons(Spin);
    IsingChain();
  }

  /** The QUBO example: the same couplings, -4.0 on (2, 3) and 2.0 on nodes
      2 and 3, the SPIN chain coupling read in BINARY, and no offset left. */
  lemma QuboExample()
    ensures Valid(Triangle(Binary)) && ChainsAreSets(Stretched) && Loopless(Square)
    ensures EmbedBqm(Triangle(Binary), Stretched, Square, 1.0)
         == Ok(BQM([(0, 0.0), (1, 0.0), (2, 2.0), (3, 2.0)],
                   [((0, 1), 1.0), ((1, 2), 1.0), ((0, 3), 1.0), ((2, 3), -4.0)],
                   0.0, Binary))
  {
    TriangleValid(Binary);
    LinearPass(Binary);
    QuadraticPass(Binary);
    ChainValues();
    Singletons(Binary);
    BinaryChain();
  }
}
