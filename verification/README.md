# Minor-embedding transforms (dwave-system), modelled in Dafny

This project models `embed_bqm` from `dwave/embedding/transforms.py`, the
forward minor-embedding transform, and the chain-lookup and re-alignment
part of `unembed_sampleset`. The model is written against dimod 0.8
semantics. The forward transform takes a source binary quadratic model
(BQM), an embedding that maps each source variable to a chain of target
nodes, and the target graph's adjacency. It builds the target BQM in four
steps:

- copy the offset;
- smear each linear bias evenly over the variable's chain;
- smear each quadratic bias evenly over the target edges between the two
  chains;
- add a SPIN coupling of `-chain_strength` on every edge inside a chain,
  and move `chain_strength` per such edge into the offset; a chain of one
  node has no such edge and is only added as a variable with bias 0.0.

Errors are raised for a variable without a chain, for a chain node outside
the target graph, and for an interaction with no target edge between its
chains. The first failure in the source model's iteration order is the one
raised.

Python dicts are modelled as insertion-ordered association lists
(`Dicts.Dict`). Their iteration order decides which error comes first and
the orientation a new quadratic key is stored under. Chains are
duplicate-free sequences. The adjacency is a map from node to
neighbour set. Biases are exact `real`s.

Modules:

- `Results`, `Dicts`: error wrappers and ordered dicts.
- `Bqm`: the BQM record and the dimod operations the transform calls
  (`add_offset`, `add_variable`, `add_interaction` with its SPIN-to-BINARY
  conversion, `add_interactions_from`, energy).
- `BqmFacts`: what each of those operations does to a bias, a coupling and
  the energy.
- `Embed`: the transform itself.
- `Edges`: the edge lists it builds are complete and hold each edge once.
- `EmbedErrors`: exactly when it succeeds, and which error it raises first.
- `EmbedValid`: the model it returns keeps dimod's invariant.
- `Placement`: which target nodes the model it returns holds.
- `EmbedBiases`: every target coefficient, as a closed sum over the source
  model and the chains.
- `Conservation`: with disjoint chains, the chain biases sum back to the
  source bias, and so do the interaction's edges.
- `Penalty`: the chain penalties' energy at any sample, and the 2 ·
  chain_strength cost of each broken chain edge.
- `Examples`: the two worked examples of the documentation, proved.
- `Unembed`: the chain lookup, chain indices, energy recomputation and
  field re-alignment of `unembed_sampleset`, with the chain-break policy as
  a function parameter.

The version modelled is the one in the file. It takes a single chain-break
method and has no option to attach the embedding to the result's info.
Later versions of the library add multi-policy unembedding and that info
option; neither is modelled.

## Model

| member | source | states |
|---|---|---|
| Dicts.LookupHit | dwave/embedding/transforms.py:117-118 | `embedding[v]` succeeds exactly when `v in embedding` holds |
| Embed.CheckChain | dwave/embedding/transforms.py:115-125 | the per-variable checks: MissingChain iff v has no chain; InvalidNode iff a chain node is not in the target graph; EmptyChain iff the chain is empty (the division by its length fails); otherwise the chain, non-empty and inside the graph |
| Embed.Interactions | dwave/embedding/transforms.py:132 | every available interaction (s, t) has s in u's chain, t in v's chain and s a neighbour of t |
| Embed.ChainEdges | dwave/embedding/transforms.py:150 | every penalty edge joins two nodes of the chain that the target graph connects; in a duplicate-free chain it is never a loop |
| Edges.InteractionsComplete | dwave/embedding/transforms.py:132 | every (s, t) with s in u's chain, t in v's chain and s a neighbour of t is listed |
| Edges.InteractionsDistinct | dwave/embedding/transforms.py:132-137 | with duplicate-free chains no pair is listed twice, so the list's length is the size of the set the share divides by |
| Edges.AvailableLinked | dwave/embedding/transforms.py:132-135 | the available list is empty iff no node of u's chain is a neighbour of a node of v's chain |
| Edges.ChainEdgesComplete | dwave/embedding/transforms.py:150 | every pair of chain nodes joined by a target edge gets a penalty edge, oriented in chain order |
| Edges.ChainEdgesForward | dwave/embedding/transforms.py:150 | in a duplicate-free chain no penalty edge runs against the chain order, so no pair is coupled in both orientations |
| Edges.ChainEdgesDistinct | dwave/embedding/transforms.py:150 | in a duplicate-free chain no penalty edge is listed twice |
| Embed.WithBias | dwave/embedding/transforms.py:150 | the chain's quadratic dict has the chain edges as keys, in order, each with the same bias |
| Embed.SmearLinearChecks | dwave/embedding/transforms.py:115-127 | the linear pass succeeds iff every source variable's chain passes the checks |
| Embed.LinearPassResolves | dwave/embedding/transforms.py:115-132 | once the linear pass succeeds, both ends of every source interaction have valid chains, so the quadratic pass's lookups cannot fail |
| EmbedErrors.SmearLinearFirstError | dwave/embedding/transforms.py:115-123 | the error raised is that of the first variable, in iteration order, whose chain fails the checks |
| EmbedErrors.SmearQuadraticSucceeds | dwave/embedding/transforms.py:131-139 | the quadratic pass succeeds iff, for every interaction, some node of one chain is a target neighbour of a node of the other |
| EmbedErrors.SmearQuadraticFirstError | dwave/embedding/transforms.py:131-135 | MissingEdge names the first interaction, in iteration order, whose chains no target edge joins |
| EmbedErrors.EmbedSucceeds | dwave/embedding/transforms.py:107-157 | embed_bqm returns a model iff all chains are valid and, for every interaction, a target edge joins its two chains |
| EmbedErrors.EmbedLinearError | dwave/embedding/transforms.py:115-123 | embed_bqm raises the first failing variable's chain error |
| EmbedErrors.EmbedEdgeError | dwave/embedding/transforms.py:131-135 | with all chains valid, embed_bqm raises MissingEdge for the first interaction whose chains no target edge joins |
| BqmFacts.ValidAddInteraction | dwave/embedding/transforms.py:139-151 | `add_interaction` between two distinct variables keeps dimod's invariant, whichever vartype the bias is given in |
| BqmFacts.HasAddVariables | dwave/embedding/transforms.py:127 | `add_variables_from` leaves the model holding exactly its old variables and the given nodes |
| BqmFacts.HasAddInteractions | dwave/embedding/transforms.py:139 | `add_interactions_from` leaves the model holding exactly its old variables and both ends of every pair |
| Placement.SmearLinearPlaces | dwave/embedding/transforms.py:115-127 | once every chain resolves the linear pass succeeds, and the model then holds exactly its old nodes and every node of every source variable's chain |
| Placement.SmearQuadraticKeeps | dwave/embedding/transforms.py:131-139 | the quadratic pass removes no node |
| Placement.PenalizeChainPlaces | dwave/embedding/transforms.py:141-151 | one chain's step removes no node, places the node of a one-node chain, and places both ends of every penalty edge |
| Placement.ChainPenaltiesPlaces | dwave/embedding/transforms.py:141-148 | the chain loop removes no node and places the node of every one-node chain of the embedding |
| Placement.EmbedBqmPlaces | dwave/embedding/transforms.py:107-157 | the returned model holds every node of every source variable's chain, and the node of every one-node chain of the embedding, used or not |
| EmbedValid.EmbedBqmValid | dwave/embedding/transforms.py:107-157 | the returned model is one dimod accepts: no variable or interaction stored twice, no interaction stored in both orientations, every interaction between two distinct variables of the model |
| EmbedBiases.AddVariablesBias | dwave/embedding/transforms.py:125-127 | `add_variables_from` adds b to each chain node's bias and leaves all other biases alone |
| EmbedBiases.SmearLinearBias | dwave/embedding/transforms.py:115-127 | after the linear pass each target node's bias is its old bias plus bias/len(chain) from every variable whose chain holds it |
| EmbedBiases.AddInteractionsBiases | dwave/embedding/transforms.py:137-139 | each available edge's coupling grows by bias/len(available), in whichever orientation it is stored; linear biases are unchanged |
| EmbedBiases.SmearQuadraticBiases | dwave/embedding/transforms.py:131-139 | after the quadratic pass each coupling is its old value plus its share of every source interaction; linear biases are unchanged |
| EmbedBiases.PenalizeSingleton | dwave/embedding/transforms.py:143-148 | a one-node chain gets no penalty edge; its node is then a variable of the model, and no bias changes |
| EmbedBiases.PenalizeChainSpin | dwave/embedding/transforms.py:150-155 | on a SPIN model a chain puts -cs on each of its edges and adds cs per edge to the offset; linear biases are unchanged |
| EmbedBiases.PenalizeChainBinary | dwave/embedding/transforms.py:150-155 | on a BINARY model the SPIN penalty becomes -4·cs on each edge and +2·cs on each end, and the offset is unchanged |
| EmbedBiases.ChainPenaltiesBiases | dwave/embedding/transforms.py:141-155 | the chain loop's total effect on offset, biases and couplings, as sums over all chains, for both vartypes |
| EmbedBiases.EmbedBqmBiases | dwave/embedding/transforms.py:107-157 | every coefficient of the embedded model: offset = source offset (+ penalty offset in SPIN); bias = linear share (+ 2·cs per chain edge end in BINARY); coupling = quadratic share − cs (SPIN) or 4·cs (BINARY) per chain edge |
| EmbedBiases.TotalWithBias | dwave/embedding/transforms.py:154 | the sum of the chain's quadratic biases is the bias once per chain edge |
| Conservation.TimesShare | dwave/embedding/transforms.py:125-127 | len(chain) copies of bias/len(chain) add back up to the bias |
| Conservation.LinearConserved | dwave/embedding/transforms.py:115-127 | with disjoint chains, on a SPIN model, every node of v's chain carries bias/len(chain), and the chain's biases sum to v's source bias |
| Conservation.QuadraticConserved | dwave/embedding/transforms.py:131-139 | with disjoint chains, every available edge of (u, v) carries bias/len(available), and the edges sum to the source coupling |
| BqmFacts.SpinInteractionBiases | dwave/embedding/transforms.py:151 | `add_interactions_from(..., vartype=SPIN)` on a BINARY model adds the bias to the offset, −2·bias to each end and 4·bias to the coupling |
| BqmFacts.EnergyAddSpinInteraction | dwave/embedding/transforms.py:151 | a SPIN coupling J added to a model of either vartype raises its energy by J·s_u·s_v, with the sample read as spins |
| BqmFacts.AddOneInteraction | dwave/embedding/transforms.py:139 | a pair that is not yet coupled in either orientation is appended as (u, v), and nothing else changes |
| Penalty.EnergySpinInteractions | dwave/embedding/transforms.py:151 | a dict of SPIN couplings adds, at any sample, the sum of J·s_u·s_v over its entries |
| Penalty.PenaltyIsStress | dwave/embedding/transforms.py:150-155 | the penalty couplings plus the offset correction add cs − cs·s_u·s_v per chain edge |
| Penalty.EnergyPenalizeChain | dwave/embedding/transforms.py:141-155 | one chain's penalties raise the energy at x by its edges' stress, for both vartypes and for singletons |
| Penalty.EnergyChainPenalties | dwave/embedding/transforms.py:141-155 | the whole chain loop raises the energy by the stress of all chains |
| Penalty.EdgeCost | dwave/embedding/transforms.py:54-56 | on spin or binary values, a chain edge costs 0 when its ends agree and 2·chain_strength when they differ |
| Penalty.StressIsBroken | dwave/embedding/transforms.py:54-56 | the stress of a chain's edges is 2·cs per broken edge |
| Penalty.NoneBroken | dwave/embedding/transforms.py:153-155 | no edge inside an agreeing chain is broken |
| Penalty.ChainsStressIsBroken | dwave/embedding/transforms.py:54-56 | over all chains, the penalty energy is 2·cs per broken chain edge |
| Penalty.NoBrokenCost | dwave/embedding/transforms.py:153-155 | when every chain agrees there is no chain-break cost |
| Penalty.ZeroStrengthStress | dwave/embedding/transforms.py:150-155 | with chain_strength 0 the penalties add no energy |
| Penalty.EmbedEnergy | dwave/embedding/transforms.py:141-157 | the embedded model's energy is that of the same embedding with chain_strength 0, plus the chains' stress |
| Penalty.EmbedPenalty | dwave/embedding/transforms.py:141-157 | on spin or binary samples, chain_strength costs exactly 2·cs per broken chain edge, and nothing when every chain agrees |
| Examples.ChainOfC | dwave/embedding/transforms.py:90-91 | the chain {2, 3} on the 4-cycle gets the single penalty coupling (2, 3): −1.0 |
| Examples.IsingExample | dwave/embedding/transforms.py:70-93 | K3 embedded on the 4-cycle with c on {2, 3} gives couplings (0,1)=(1,2)=(0,3)=1.0, (2,3)=−1.0 and offset 1.0 |
| Examples.QuboExample | dwave/embedding/transforms.py:255-282 | the same embedding of the K3 QUBO gives (2,3)=−4.0, biases 2.0 on nodes 2 and 3, 0.0 on nodes 0 and 1, and offset 0.0 |
| Unembed.ChainsOf | dwave/embedding/transforms.py:352-356 | the chains come out in the source variables' order, one per variable; the result is Mismatch iff some variable has no chain |
| Unembed.IndexOf | dwave/embedding/transforms.py:358 | a node's column is found iff the node is a target variable, and it is a column holding that node |
| Unembed.ChainIndex | dwave/embedding/transforms.py:358 | a chain's columns exist iff every node is a target variable; column j holds node j; otherwise the error names a missing node |
| Unembed.ChainIndices | dwave/embedding/transforms.py:358 | the same, chain by chain, for every chain |
| Unembed.ChainIdxs | dwave/embedding/transforms.py:352-358 | Mismatch iff a variable has no chain; success iff every chain node is a target variable; on success column j of row i holds node j of variable i's chain |
| Unembed.Energies | dwave/embedding/transforms.py:366-367 | one energy per resolved row, each the source model's energy at that row |
| Unembed.Reindex | dwave/embedding/transforms.py:380 | `record[name][idxs]` succeeds iff every index is in range; row k of the result is row idxs[k] of the field; otherwise it reports an index past the field's end |
| Unembed.ReindexFields | dwave/embedding/transforms.py:379-381 | the re-alignment succeeds iff every retained index is in range of every field; each field then keeps its name and order and row k is the field's row idxs[k]; otherwise it reports an index past some field's end |
| Unembed.EmptyFields | dwave/embedding/transforms.py:368-377 | the empty result keeps every field name, each with no rows |
| Unembed.UnembedSampleSet | dwave/embedding/transforms.py:349-390 | Mismatch iff a source variable has no chain. The result is labelled by the source variables in order. Each energy is recomputed from the source model at its row. The rows and fields are the policy's rows and the target fields realigned by the policy's indices, the indices computed from the chains in source order. A policy that keeps no row yields an empty sample set that still has every field name. A failed chain lookup is the result; once the chains resolve, the result is what `FromResolution` builds from the policy's rows and indices |
| Unembed.FromResolution | dwave/embedding/transforms.py:364-390 | rows `energies` refuses (none, or not one value per variable) give an empty sample set with every field name. Otherwise the result is Ok iff every retained index is a row of every field and (there are no fields or one index is kept per row). It is RowOutOfRange iff some index is out of range, and LengthMismatch iff the indices are in range but their number differs from the number of rows. On Ok the samples are the rows, each energy is the source energy at its row, and the fields are re-aligned |
| Unembed.TargetEnergiesIgnored | dwave/embedding/transforms.py:386-388 | the target sample set's energies never reach the result |
| Unembed.ValueAtColumn | dwave/embedding/transforms.py:367 | a row read as an assignment gives each variable the value in its column |
| Unembed.UnembeddedAssignment | dwave/embedding/transforms.py:367 | the energy of a returned row is evaluated with each source variable at its own column |

## Left out

- `smear_vartype` (transforms.py lines 100-105) is not modelled. It re-runs the transform through dimod's `.spin`/`.binary` conversions, which are not part of this model.
- `embed_ising` and `embed_qubo` are not modelled: they only convert formats through dimod's `from_ising`, `from_qubo` and `to_qubo`. The QUBO example is proved on the BINARY model that `from_qubo` builds, with biases 0.0 for a, b and c.
- `chain_to_quadratic` is not part of this model. `Embed.ChainToQuadratic` defines it as `-chain_strength` on each pair of chain nodes joined by a target edge, in chain order. Its own checks and errors are left out.
- Embed.EmbedBqm: returns a result in cases where the program fails inside `chain_to_quadratic` (line 150). The program rejects there a chain whose nodes the target edges do not connect. It may also fail on the chain of a variable the source model does not use when that chain is empty or leaves the target graph: the chain loop visits every chain of the embedding, while the linear pass checked only the chains of used variables. The model penalises a disconnected chain on the target edges it has, and gives an empty or out-of-graph chain no penalty edges.
- `add_variable`, `add_interaction`, `add_interactions_from` and `energies` belong to dimod, which is not part of this model. They follow dimod 0.8: a SPIN bias J added to a BINARY model becomes J on the offset, −2J on each end and 4J on the coupling.
- The chain-break policies (`majority_vote`, `broken_chains`) are a total function parameter of `Unembed.UnembedSampleSet`. Errors raised inside a policy are not modelled.
- `chain_break_fraction` (lines 383-384) is left out. So are the numpy dtypes of the empty record (lines 369-377) and the `info` copy.
- Unembed.UnembedSampleSet: when `energies` raises ValueError and when `from_samples` rejects a field are dimod behaviour and are assumptions here. `energies` is assumed to fail on an empty or non-rectangular resolution. `from_samples` is assumed to reject a field whose length is not the number of rows.
- The round trip (embed, then unembed samples whose chains all agree, and get the source values back) is not stated. It depends on what the opaque policy does. `Penalty.EmbedPenalty` states the embedding half: the penalties cost nothing on agreeing chains.
- Conservation.LinearConserved: stated for SPIN models only. In a BINARY model the chain penalties add 2·chain_strength to the nodes of every chain edge, so chain biases do not sum to the source bias. `EmbedBiases.EmbedBqmBiases` states both vartypes.
- Penalty.EmbedEnergy: relates the embedded model to the same embedding at chain_strength 0, not to the source model's energy at the unembedded sample. Coefficient-level conservation is stated in `Conservation` instead.
- Floating point is not modelled: biases are exact reals. Conservation holds exactly in reals, not bit for bit in Python floats.
- The argument passed to `InvalidNodeError` (line 123) is not modelled. The code passes the boolean from `next(u not in ...)`, not the node; the model records only that the error is raised, for the variable.
- Python sets are modelled as sequences in a fixed order: chains and `available_interactions` (line 132). Which orientation a new coupling is stored under follows that order. Set iteration order in CPython is not modelled.
- An empty chain makes line 125 divide by zero. This is modelled as the `EmptyChain` error.
- Embed.EmbedBqm: requires the source model to satisfy dimod's invariant (`Bqm.Valid`), the embedding to list each variable once, as a Python dict does, and chains to be duplicate-free, as Python sets are.
- Embed.EmbedBqm: requires a target adjacency without self-loops (`Embed.Loopless`: no node listed among its own neighbours), which the program accepts. Such a loop at node s reaches line 132 only when the chains of u and v share s; dimod's `add_interaction` then raises ValueError for the pair (s, s), and the model has no error for that. Whether `chain_to_quadratic` couples a looped node with itself depends on that function, which is not part of this model.
