/** The resource filters of the dashboard (`filterDeployments`,
    `filterStatefulSets` and `filterPods` in public/js/dashboard.js). A row is
    kept when its name is selected (or nothing is selected) and its labels,
    written as space-separated `key:value` pairs, satisfy the label query. The
    kept rows stay in their order. */
module ResourceFilter {
  import opened Wrappers
  import opened Text
  import Query

  /** One row of a fetched list, as the backend sends it. `labels` is in the
      order `Object.entries` yields it; a missing label map is empty. */
  datatype Resource = Resource(
    name: string,
    namespace: string,
    resourceType: string,
    labels: seq<(string, string)>,
    ready: string,
    status: string,
    restarts: int,
    age: string)

  /** The text the label query is tested against. */
  function LabelText(labels: seq<(string, string)>): string {
    Join(seq(|labels|, i requires 0 <= i < |labels| => labels[i].0 + ":" + labels[i].1), " ")
  }

  predicate NameSelected(selectedNames: seq<string>, name: string) {
    |selectedNames| == 0 || name in selectedNames
  }

  /** Both gates of the filter callback. */
  predicate Keeps(r: Resource, selectedNames: seq<string>, labelQuery: string, strict: bool) {
    NameSelected(selectedNames, r.name) && Query.Evaluate(LabelText(r.labels), labelQuery, strict)
  }

  /** `xs` is `ys` with some elements deleted. */
  predicate IsSubsequence<T(==)>(xs: seq<T>, ys: seq<T>)
    decreases |ys|
  {
    if ys == [] then xs == []
    else (|xs| > 0 && xs[0] == ys[0] && IsSubsequence(xs[1..], ys[1..])) || IsSubsequence(xs, ys[1..])
  }

  /** `rows.filter(row => matchesName && matchesLabel)`. */
  function FilterResources(rows: seq<Resource>, selectedNames: seq<string>, labelQuery: string, strict: bool)
    : (kept: seq<Resource>)
    ensures IsSubsequence(kept, rows)
    ensures forall r :: r in kept <==> r in rows && Keeps(r, selectedNames, labelQuery, strict)
    decreases |rows|
  {
    if rows == [] then []
    else
      var rest := FilterResources(rows[1..], selectedNames, labelQuery, strict);
      if Keeps(rows[0], selectedNames, labelQuery, strict) then [rows[0]] + rest else rest
  }

  /** `filterStatefulSets`: the selected stateful sets whose labels match, in order. */
  function FilterStatefulSets(statefulSets: seq<Resource>, selectedNames: seq<string>, labelSearchTerm: string, isStrictSearch: bool)
    : (kept: seq<Resource>)
    ensures IsSubsequence(kept, statefulSets)
    ensures forall r :: r in kept <==> r in statefulSets && Keeps(r, selectedNames, labelSearchTerm, isStrictSearch)
  {
    FilterResources(statefulSets, selectedNames, labelSearchTerm, isStrictSearch)
  }

  /** `filterPods`: the selected pods whose labels match, in order. */
  function FilterPods(pods: seq<Resource>, selectedNames: seq<string>, labelSearchTerm: string, isStrictSearch: bool)
    : (kept: seq<Resource>)
    ensures IsSubsequence(kept, pods)
    ensures forall r :: r in kept <==> r in pods && Keeps(r, selectedNames, labelSearchTerm, isStrictSearch)
  {
    FilterResources(pods, selectedNames, labelSearchTerm, isStrictSearch)
  }

  /** `filterDeployments` with its second parameter read under the name the
      caller passes it for, as in the other two filters. */
  function FilterDeployments(deployments: seq<Resource>, selectedNames: seq<string>, labelSearchTerm: string, isStrictSearch: bool)
    : (kept: seq<Resource>)
    ensures IsSubsequence(kept, deployments)
    ensures forall r :: r in kept <==> r in deployments && Keeps(r, selectedNames, labelSearchTerm, isStrictSearch)
  {
    FilterResources(deployments, selectedNames, labelSearchTerm, isStrictSearch)
  }

  /** The exception the callback of `filterDeployments` throws. */
  datatype ScriptError = ReferenceError(identifier: string)

  /** `filterDeployments` as written: its callback reads `selectedNames`,
      which is not in scope (the parameter is called `searchTerm`), so the
      first row it is called on throws. Only an empty list gets through. */
  function FilterDeploymentsAsWritten(deployments: seq<Resource>, searchTerm: seq<string>, labelSearchTerm: string, isStrictSearch: bool)
    : (r: Result<seq<Resource>, ScriptError>)
    ensures r.Ok? <==> deployments == []
    ensures r.Ok? ==> r.value == []
  {
    if deployments == [] then Ok([]) else Err(ReferenceError("selectedNames"))
  }

  // ---------------------------------------------------------------------
  // Properties of the filter

  /** With nothing selected and an empty query every row is kept. */
  lemma {:induction false} NoCriteriaKeepsAll(rows: seq<Resource>, strict: bool)
    ensures FilterResources(rows, [], "", strict) == rows
    decreases |rows|
  {
    if rows != [] {
      NoCriteriaKeepsAll(rows[1..], strict);
    }
  }

  /** Filtering a concatenation filters each part and keeps them in order. */
  lemma {:induction false} FilterAppend(xs: seq<Resource>, ys: seq<Resource>, selectedNames: seq<string>, labelQuery: string, strict: bool)
    ensures FilterResources(xs + ys, selectedNames, labelQuery, strict)
         == FilterResources(xs, selectedNames, labelQuery, strict) + FilterResources(ys, selectedNames, labelQuery, strict)
    decreases |xs|
  {
    if xs != [] {
      assert (xs + ys)[1..] == xs[1..] + ys;
      FilterAppend(xs[1..], ys, selectedNames, labelQuery, strict);
    } else {
      assert xs + ys == ys;
    }
  }

  /** Filtering again with the same criteria changes nothing. */
  lemma {:induction false} FilterIdempotent(rows: seq<Resource>, selectedNames: seq<string>, labelQuery: string, strict: bool)
    ensures var once := FilterResources(rows, selectedNames, labelQuery, strict);
      FilterResources(once, selectedNames, labelQuery, strict) == once
    decreases |rows|
  {
    if rows != [] {
      FilterIdempotent(rows[1..], selectedNames, labelQuery, strict);
      var rest := FilterResources(rows[1..], selectedNames, labelQuery, strict);
      if Keeps(rows[0], selectedNames, labelQuery, strict) {
        assert ([rows[0]] + rest)[1..] == rest;
      }
    }
  }

  /** The defect of `filterDeployments`: a single deployment, nothing
      selected and no query, which the corrected filter keeps, makes the
      filter as written throw. */
  lemma DeploymentFilterThrows(d: Resource, strict: bool)
    ensures FilterDeploymentsAsWritten([d], [], "", strict).Err?
    ensures FilterDeployments([d], [], "", strict) == [d]
  {
    NoCriteriaKeepsAll([d], strict);
  }
}
