/**
 The part of `unembed_sampleset` that does not depend on numpy or on the
 chain-break policy: gathering the source variables' chains, translating
 chain nodes into column indices of the target samples, recomputing the
 energies on the resolved rows, and re-aligning every other per-row field
 with the row indices the policy retained.
 */
module Unembed {
  import opened Results
  import opened Dicts
  import opened Bqm

  /** A dimod SampleSet: one row of values per sample, aligned with
      `variables`; the energy of each row; the other per-row fields by name. */
  datatype SampleSet<V, F> = SampleSet(
    variables: seq<V>,
    samples: seq<seq<int>>,
    energies: seq<real>,
    vectors: Dict<string, seq<F>>,
    vartype: Vartype)

  /** What `unembed_sampleset` raises: the ValueError for a variable without
      a chain, the KeyError for a chain node the target samples do not
      have, numpy's IndexError for a retained row past the end of a field,
      and the ValueError of `from_samples` for a field whose length is not
      the number of rows. */
  datatype UnembedError<T> = Mismatch | UnknownTarget(node: T) | RowOutOfRange(row: nat) | LengthMismatch

  /** A chain-break policy: from the target rows and the chains as column
      indices, the resolved source rows and the indices of the target rows
      they came from. */
  type Policy = (seq<seq<int>>, seq<seq<nat>>) -> (seq<seq<int>>, seq<nat>)

  /** `[embedding[v] for v in variables]`; a missing chain is a Mismatch. */
  function ChainsOf<V(==), T>(embedding: Dict<V, seq<T>>, variables: seq<V>): (r: Result<seq<seq<T>>, UnembedError<T>>)
    ensures r.Ok? <==> forall i :: 0 <= i < |variables| ==> variables[i] in Keys(embedding)
    ensures r.Err? ==> r.error == Mismatch
    ensures r.Ok? ==> |r.value| == |variables|
    ensures r.Ok? ==> forall i :: 0 <= i < |variables| ==> Lookup(embedding, variables[i]) == Some(r.value[i])
    decreases |variables|
  {
    if |variables| == 0 then Ok([])
    else
      LookupHit(embedding, variables[0]);
      match Lookup(embedding, variables[0])
      case None => Err(Mismatch)
      case Some(chain) =>
        match ChainsOf(embedding, variables[1..])
        case Err(e) => Err(e)
        case Ok(chains) => Ok([chain] + chains)
  }

  /** The first position of `x` in `xs` (`variables.index[x]`), None where
      the lookup raises KeyError. */
  function IndexOf<X(==)>(xs: seq<X>, x: X): (r: Option<nat>)
    ensures r.Some? <==> x in xs
    ensures r.Some? ==> r.value < |xs| && xs[r.value] == x
  {
    if |xs| == 0 then None
    else if xs[0] == x then Some(0)
    else
      match IndexOf(xs[1..], x)
      case None => None
      case Some(i) => Some(i + 1)
  }

  /** `[target.variables.index[v] for v in chain]`. */
  function ChainIndex<T(==)>(targetVars: seq<T>, chain: seq<T>): (r: Result<seq<nat>, UnembedError<T>>)
    ensures r.Ok? <==> forall j :: 0 <= j < |chain| ==> chain[j] in targetVars
    ensures r.Ok? ==> |r.value| == |chain|
    ensures r.Ok? ==> forall j :: 0 <= j < |chain| ==> r.value[j] < |targetVars| && targetVars[r.value[j]] == chain[j]
    ensures r.Err? ==> r.error.UnknownTarget? && r.error.node in chain && r.error.node !in targetVars
  {
    if |chain| == 0 then Ok([])
    else
      match IndexOf(targetVars, chain[0])
      case None => Err(UnknownTarget(chain[0]))
      case Some(i) =>
        match ChainIndex(targetVars, chain[1..])
        case Err(e) => Err(e)
        case Ok(rest) => Ok([i] + rest)
  }

  /** The chains as column indices of the target rows, chain by chain. */
  function ChainIndices<T(==)>(targetVars: seq<T>, chains: seq<seq<T>>): (r: Result<seq<seq<nat>>, UnembedError<T>>)
    ensures r.Ok? <==> forall i, j :: 0 <= i < |chains| && 0 <= j < |chains[i]| ==> chains[i][j] in targetVars
    ensures r.Ok? ==> |r.value| == |chains|
    ensures r.Ok? ==> forall i :: 0 <= i < |chains| ==> |r.value[i]| == |chains[i]|
    ensures r.Ok? ==> forall i, j :: 0 <= i < |chains| && 0 <= j < |chains[i]| ==>
      r.value[i][j] < |targetVars| && targetVars[r.value[i][j]] == chains[i][j]
    ensures r.Err? ==> r.error.UnknownTarget? && r.error.node !in targetVars
  {
    if |chains| == 0 then Ok([])
    else
      match ChainIndex(targetVars, chains[0])
      case Err(e) => Err(e)
      case Ok(idx) =>
        match ChainIndices(targetVars, chains[1..])
        case Err(e) => Err(e)
        case Ok(rest) =>
          assert forall i :: 1 <= i < |chains| ==> chains[i] == chains[1..][i - 1];
          Ok([idx] + rest)
  }

  /** Every variable has a chain and every chain node is a target variable. */
  predicate Covered<V(==), T(==)>(targetVars: seq<T>, embedding: Dict<V, seq<T>>, variables: seq<V>) {
    forall i :: 0 <= i < |variables| ==>
      match Lookup(embedding, variables[i])
      case None => false
      case Some(chain) => forall j :: 0 <= j < |chain| ==> chain[j] in targetVars
  }

  /** `ci[i]` lists, in chain order, the target columns of the chain of the
      i-th variable. */
  predicate IndexesChains<V(==), T(==)>(targetVars: seq<T>, embedding: Dict<V, seq<T>>, variables: seq<V>, ci: seq<seq<nat>>) {
    && |ci| == |variables|
    && forall i :: 0 <= i < |variables| ==>
      match Lookup(embedding, variables[i])
      case None => false
      case Some(chain) =>
        && |ci[i]| == |chain|
        && forall j :: 0 <= j < |chain| ==> ci[i][j] < |targetVars| && targetVars[ci[i][j]] == chain[j]
  }

  /** The chain lookup (lines 352-358): the chains of `variables`, in that
      order, as target columns. */
  function ChainIdxs<V(==), T(==)>(targetVars: seq<T>, embedding: Dict<V, seq<T>>, variables: seq<V>): (r: Result<seq<seq<nat>>, UnembedError<T>>)
    ensures r == Err(Mismatch) <==> exists i :: 0 <= i < |variables| && variables[i] !in Keys(embedding)
    ensures r.Ok? <==> Covered(targetVars, embedding, variables)
    ensures r.Err? ==> r.error.Mismatch? || r.error.UnknownTarget?
    ensures r.Ok? ==> IndexesChains(targetVars, embedding, variables, r.value)
  {
    match ChainsOf(embedding, variables)
    case Err(e) =>
      assert !Covered(targetVars, embedding, variables) by {
        var i :| 0 <= i < |variables| && variables[i] !in Keys(embedding);
        LookupHit(embedding, variables[i]);
      }
      Err(e)
    case Ok(chains) =>
      assert forall i :: 0 <= i < |variables| ==> Lookup(embedding, variables[i]) == Some(chains[i]);
      ChainIndices(targetVars, chains)
  }

  /** The value `row` gives `v`: its entry at v's first position among
      `variables`. */
  function ValueAt<V(==)>(variables: seq<V>, row: seq<int>, v: V): real
    decreases |variables|
  {
    if |variables| == 0 || |row| == 0 then 0.0
    else if variables[0] == v then row[0] as real
    else ValueAt(variables[1..], row[1..], v)
  }

  /** `row` read as an assignment of the labelled variables. */
  function SampleOf<V(==)>(variables: seq<V>, row: seq<int>): V -> real {
    (v: V) => ValueAt(variables, row, v)
  }

  /** The source model's energy at one resolved row. */
  function RowEnergy<V(==)>(m: BQM<V>, variables: seq<V>, row: seq<int>): real {
    Energy(m, SampleOf(variables, row))
  }

  /** `source_bqm.energies((unembedded, variables))`. */
  function Energies<V(==)>(m: BQM<V>, variables: seq<V>, rows: seq<seq<int>>): (es: seq<real>)
    ensures |es| == |rows|
    ensures forall k :: 0 <= k < |rows| ==> es[k] == RowEnergy(m, variables, rows[k])
  {
    if |rows| == 0 then [] else [RowEnergy(m, variables, rows[0])] + Energies(m, variables, rows[1..])
  }

  /** When `energies` accepts the resolved rows: at least one, each with a
      value per variable. An empty resolution is the dimod shortcoming the
      except branch works around. */
  predicate Rectangular(rows: seq<seq<int>>, n: nat) {
    |rows| > 0 && forall k :: 0 <= k < |rows| ==> |rows[k]| == n
  }

  /** Every retained index is a row of every field. */
  predicate IndicesInRange<F>(vectors: Dict<string, seq<F>>, idxs: seq<nat>) {
    forall f, k :: 0 <= f < |vectors| && 0 <= k < |idxs| ==> idxs[k] < |vectors[f].1|
  }

  /** `fields` holds the fields of `vectors`, in the same order, each one
      re-indexed: row k of a field is row `idxs[k]` of the original. */
  predicate Realigned<F(==)>(vectors: Dict<string, seq<F>>, fields: Dict<string, seq<F>>, idxs: seq<nat>) {
    && Keys(fields) == Keys(vectors)
    && forall f :: 0 <= f < |fields| ==>
      && |fields[f].1| == |idxs|
      && forall k :: 0 <= k < |idxs| ==> idxs[k] < |vectors[f].1| && fields[f].1[k] == vectors[f].1[idxs[k]]
  }

  /** `record[name][idxs]`: IndexError at the first index past the end,
      which is the error's value. */
  function Reindex<F(==)>(column: seq<F>, idxs: seq<nat>): (r: Result<seq<F>, nat>)
    ensures r.Ok? <==> forall k :: 0 <= k < |idxs| ==> idxs[k] < |column|
    ensures r.Ok? ==> |r.value| == |idxs| && forall k :: 0 <= k < |idxs| ==> r.value[k] == column[idxs[k]]
    ensures r.Err? ==> r.error in idxs && r.error >= |column|
  {
    if |idxs| == 0 then Ok([])
    else if idxs[0] >= |column| then Err(idxs[0])
    else
      match Reindex(column, idxs[1..])
      case Err(e) => Err(e)
      case Ok(rest) => Ok([column[idxs[0]]] + rest)
  }

  /** The field re-alignment (lines 379-381): every non-reserved field
      re-indexed by `idxs`. */
  function ReindexFields<F(==)>(vectors: Dict<string, seq<F>>, idxs: seq<nat>): (r: Result<Dict<string, seq<F>>, nat>)
    ensures r.Ok? <==> IndicesInRange(vectors, idxs)
    ensures r.Ok? ==> Realigned(vectors, r.value, idxs)
    ensures r.Err? ==> r.error in idxs && exists f :: 0 <= f < |vectors| && r.error >= |vectors[f].1|
  {
    if |vectors| == 0 then Ok([])
    else
      match Reindex(vectors[0].1, idxs)
      case Err(e) => Err(e)
      case Ok(column) =>
        match ReindexFields(vectors[1..], idxs)
        case Err(e) => Err(e)
        case Ok(rest) =>
          assert Keys(vectors) == [vectors[0].0] + Keys(vectors[1..]);
          assert Keys([(vectors[0].0, column)] + rest) == [vectors[0].0] + Keys(rest);
          Ok([(vectors[0].0, column)] + rest)
  }

  /** The fields of `vectors`, by the same names, with no rows. */
  function EmptyFields<F>(vectors: Dict<string, seq<F>>): (r: Dict<string, seq<F>>)
    ensures Keys(r) == Keys(vectors)
    ensures forall f :: 0 <= f < |r| ==> r[f].1 == []
  {
    if |vectors| == 0 then []
    else
      assert Keys(vectors) == [vectors[0].0] + Keys(vectors[1..]);
      [(vectors[0].0, [])] + EmptyFields(vectors[1..])
  }

  /** Lines 364-390 once the policy has resolved the chains into `rows`,
      keeping the target rows `idxs`: the source energies (an empty result
      where `energies` refuses the rows), the re-aligned fields, and the
      sample set `from_samples` builds from them. */
  function FromResolution<V(==), T, F(==)>(target: SampleSet<T, F>, source: BQM<V>, variables: seq<V>, rows: seq<seq<int>>, idxs: seq<nat>)
    : (r: Result<SampleSet<V, F>, UnembedError<T>>)
    ensures r.Err? ==> r.error.RowOutOfRange? || r.error == LengthMismatch
    ensures r.Ok? ==> r.value.variables == variables && r.value.vartype == target.vartype
    ensures r.Ok? ==> Keys(r.value.vectors) == Keys(target.vectors)
    ensures r.Ok? ==> |r.value.energies| == |r.value.samples|
    ensures r.Ok? ==> forall k :: 0 <= k < |r.value.samples| ==>
      |r.value.samples[k]| == |variables| && r.value.energies[k] == RowEnergy(source, variables, r.value.samples[k])
    ensures !Rectangular(rows, |variables|) ==>
      && r.Ok? && r.value.samples == [] && r.value.energies == []
      && forall f :: 0 <= f < |r.value.vectors| ==> r.value.vectors[f].1 == []
    ensures Rectangular(rows, |variables|) ==>
      && (r.Ok? <==> IndicesInRange(target.vectors, idxs) && (|target.vectors| == 0 || |idxs| == |rows|))
      && (r.Err? && r.error.RowOutOfRange? <==> !IndicesInRange(target.vectors, idxs))
      && (r == Err(LengthMismatch) <==> IndicesInRange(target.vectors, idxs) && |target.vectors| > 0 && |idxs| != |rows|)
      && (r.Ok? ==> r.value.samples == rows && Realigned(target.vectors, r.value.vectors, idxs))
  {
    if !Rectangular(rows, |variables|) then
      Ok(SampleSet(variables, [], [], EmptyFields(target.vectors), target.vartype))
    else
      match ReindexFields(target.vectors, idxs)
      case Err(row) => Err(RowOutOfRange(row))
      case Ok(fields) =>
        if exists f :: 0 <= f < |fields| && |fields[f].1| != |rows| then Err(LengthMismatch)
        else Ok(SampleSet(variables, rows, Energies(source, variables, rows), fields, target.vartype))
  }

  /** `unembed_sampleset(target, embedding, source, policy)` without the
      chain-break fraction. */
  function UnembedSampleSet<V(==), T(==), F(==)>(target: SampleSet<T, F>, embedding: Dict<V, seq<T>>, source: BQM<V>, policy: Policy)
    : (r: Result<SampleSet<V, F>, UnembedError<T>>)
    ensures r == Err(Mismatch) <==> exists i :: 0 <= i < |Keys(source.linear)| && Keys(source.linear)[i] !in Keys(embedding)
    ensures !Covered(target.variables, embedding, Keys(source.linear)) ==> r.Err? && (r.error.Mismatch? || r.error.UnknownTarget?)
    ensures r.Ok? ==> r.value.variables == Keys(source.linear) && r.value.vartype == target.vartype
    ensures r.Ok? ==> Keys(r.value.vectors) == Keys(target.vectors)
    ensures r.Ok? ==> |r.value.energies| == |r.value.samples|
    ensures r.Ok? ==> forall k :: 0 <= k < |r.value.samples| ==>
      |r.value.samples[k]| == |r.value.variables| && r.value.energies[k] == RowEnergy(source, r.value.variables, r.value.samples[k])
    ensures r.Ok? && |r.value.samples| > 0 ==>
      exists ci :: IndexesChains(target.variables, embedding, Keys(source.linear), ci)
        && policy(target.samples, ci).0 == r.value.samples
        && Realigned(target.vectors, r.value.vectors, policy(target.samples, ci).1)
    ensures r.Ok? && |r.value.samples| == 0 ==> r.value.energies == [] && forall f :: 0 <= f < |r.value.vectors| ==> r.value.vectors[f].1 == []
    ensures Covered(target.variables, embedding, Keys(source.linear))
      && (forall ci :: IndexesChains(target.variables, embedding, Keys(source.linear), ci) ==> policy(target.samples, ci).0 == [])
      ==> r.Ok? && r.value.samples == []
    ensures var ci := ChainIdxs(target.variables, embedding, Keys(source.linear));
      ci.Err? ==> r == Err(ci.error)
    ensures var ci := ChainIdxs(target.variables, embedding, Keys(source.linear));
      ci.Ok? ==> r == FromResolution(target, source, Keys(source.linear), policy(target.samples, ci.value).0, policy(target.samples, ci.value).1)
  {
    var variables := Keys(source.linear);
    match ChainIdxs(target.variables, embedding, variables)
    case Err(e) => Err(e)
    case Ok(chainIdxs) =>
      var (rows, idxs) := policy(target.samples, chainIdxs);
      FromResolution(target, source, variables, rows, idxs)
  }

  /** The energies a target sample set carries never reach the result: the
      source energies are recomputed from the source model. */
  lemma TargetEnergiesIgnored<V, T, F>(target: SampleSet<T, F>, energies: seq<real>, embedding: Dict<V, seq<T>>, source: BQM<V>, policy: Policy)
    ensures UnembedSampleSet(target.(energies := energies), embedding, source, policy)
         == UnembedSampleSet(target, embedding, source, policy)
  {
  }

  /** A row read as an assignment gives each labelled variable the value in
      its column, when the labels are distinct. */
  lemma {:induction false} ValueAtColumn<V>(variables: seq<V>, row: seq<int>, i: nat)
    requires Distinct(variables) && |row| == |variables| && i < |variables|
    ensures SampleOf(variables, row)(variables[i]) == row[i] as real
  {
    if i > 0 {
      assert variables[0] != variables[i];
      ValueAtColumn(variables[1..], row[1..], i - 1);
      assert variables[1..][i - 1] == variables[i];
    }
  }

  /** The unembedded rows are read against the source model's own
      variables: each variable takes its column's value in the energy. */
  lemma UnembeddedAssignment<V, T, F>(target: SampleSet<T, F>, embedding: Dict<V, seq<T>>, source: BQM<V>, policy: Policy, k: nat, i: nat)
    requires IsDict(source.linear)
    requires UnembedSampleSet(target, embedding, source, policy).Ok?
    requires k < |UnembedSampleSet(target, embedding, source, policy).value.samples|
    requires i < |source.linear|
    ensures SampleOf(Keys(source.linear), UnembedSampleSet(target, embedding, source, policy).value.samples[k])(source.linear[i].0)
         == UnembedSampleSet(target, embedding, source, policy).value.samples[k][i] as real
  {
    var s := UnembedSampleSet(target, embedding, source, policy).value;
    ValueAtColumn(Keys(source.linear), s.samples[k], i);
  }
}
