/** The resource table's selection and the rollout restart it triggers: the
    row checkboxes and their highlight, the select-all checkbox rule, and the
    POST paths `performRolloutRestart` sends, matched against the rollout
    routes of the backend (app.go). */
module RolloutTable {
  import opened Wrappers
  import opened Text
  import opened ResourceFilter

  // ---------------------------------------------------------------------
  // The select-all rule

  /** How many rows are checked. */
  function CountChecked(checks: seq<bool>): (n: nat)
    ensures n <= |checks|
    decreases |checks|
  {
    if checks == [] then 0
    else CountChecked(checks[..|checks| - 1]) + if checks[|checks| - 1] then 1 else 0
  }

  lemma {:induction false} CountCheckedAll(checks: seq<bool>)
    ensures CountChecked(checks) == |checks| <==> forall i | 0 <= i < |checks| :: checks[i]
    decreases |checks|
  {
    if checks != [] {
      var n := |checks| - 1;
      CountCheckedAll(checks[..n]);
      assert forall i | 0 <= i < n :: checks[..n][i] == checks[i];
    }
  }

  lemma {:induction false} CountCheckedNone(checks: seq<bool>)
    ensures CountChecked(checks) == 0 <==> forall i | 0 <= i < |checks| :: !checks[i]
    decreases |checks|
  {
    if checks != [] {
      var n := |checks| - 1;
      CountCheckedNone(checks[..n]);
      assert forall i | 0 <= i < n :: checks[..n][i] == checks[i];
    }
  }

  datatype SelectAllBox = SelectAllBox(checked: bool, indeterminate: bool)

  /** The select-all box the row handler computes: checked when every row is
      checked, indeterminate when some but not all are. */
  function SelectAllState(checks: seq<bool>): (box: SelectAllBox)
    ensures box.checked <==> CountChecked(checks) == |checks|
    ensures box.indeterminate <==> 0 < CountChecked(checks) < |checks|
  {
    var allChecked := forall i | 0 <= i < |checks| :: checks[i];
    var anyChecked := exists i | 0 <= i < |checks| :: checks[i];
    CountCheckedAll(checks);
    CountCheckedNone(checks);
    SelectAllBox(allChecked, !allChecked && anyChecked)
  }

  // ---------------------------------------------------------------------
  // Rollout paths and the routes that receive them

  /** The kinds the backend lists. */
  datatype Kind = Deployment | StatefulSet | Pod

  /** The `resourceType` text the backend puts in each row. */
  function KindName(kind: Kind): string {
    match kind
    case Deployment => "Deployment"
    case StatefulSet => "StatefulSet"
    case Pod => "Pod"
  }

  function KindOfName(s: string): (kind: Option<Kind>)
    ensures kind.Some? ==> KindName(kind.value) == s
  {
    if s == "Deployment" then Some(Deployment)
    else if s == "StatefulSet" then Some(StatefulSet)
    else if s == "Pod" then Some(Pod)
    else None
  }

  /** The collection segment of each kind's rollout route. */
  function RouteCollection(kind: Kind): string {
    match kind
    case Deployment => "deployments"
    case StatefulSet => "statefulsets"
    case Pod => "pods"
  }

  /** The text of a row's name cell (`resource.name || "N/A"`). */
  function NameCell(name: string): string {
    if name == "" then "N/A" else name
  }

  /** The path a restart is POSTed to, from the namespace field and the
      row's type and name cells: the template
      `/api/v1/<type>s/<namespace>/rollout/<name>`, written as its segments
      joined by slashes. When none of the three holds a slash, the path
      splits back into exactly those segments. */
  function RolloutPath(namespace: string, typeCell: string, nameCell: string): (path: string)
    ensures '/' !in namespace && '/' !in typeCell && '/' !in nameCell ==>
      SplitOn(path, '/') == ["", "api", "v1", Lower(typeCell) + "s", namespace, "rollout", nameCell]
  {
    var resourceType := Lower(typeCell) + "s";
    var fields := ["", "api", "v1", resourceType, namespace, "rollout", nameCell];
    if '/' in namespace || '/' in typeCell || '/' in nameCell then Join(fields, "/")
    else
      LowerKeepsSlashOut(typeCell);
      assert '/' !in resourceType;
      assert forall k | 0 <= k < |fields| :: '/' !in fields[k];
      SplitOnJoin(fields, '/');
      Join(fields, "/")
  }

  /** The rollout routes: `/api/v1/<collection>/:namespace/rollout/:name`,
      each parameter one non-empty path segment. */
  function MatchRolloutRoute(path: string): (m: Option<(Kind, string, string)>)
    ensures m.Some? ==> m.value.1 != "" && '/' !in m.value.1 && m.value.2 != "" && '/' !in m.value.2
  {
    var parts := SplitOn(path, '/');
    if |parts| == 7 && parts[0] == "" && parts[1] == "api" && parts[2] == "v1" && parts[5] == "rollout"
       && parts[4] != "" && parts[6] != ""
    then
      SplitOnParts(path, '/');
      var target := (parts[4], parts[6]);
      if parts[3] == "deployments" then Some((Deployment, target.0, target.1))
      else if parts[3] == "statefulsets" then Some((StatefulSet, target.0, target.1))
      else if parts[3] == "pods" then Some((Pod, target.0, target.1))
      else None
    else None
  }

  /** The fields `split` returns hold no separator. */
  lemma {:induction false} SplitOnParts(s: string, sep: char)
    ensures forall k | 0 <= k < |SplitOn(s, sep)| :: sep !in SplitOn(s, sep)[k]
    decreases |s|
  {
    if s != [] {
      SplitOnParts(s[1..], sep);
    }
  }

  /** Joining the fields of `split` with the separator gives the text back. */
  lemma {:induction false} JoinSplitOn(s: string, sep: char)
    ensures Join(SplitOn(s, sep), [sep]) == s
    decreases |s|
  {
    if s != [] {
      var rest := SplitOn(s[1..], sep);
      JoinSplitOn(s[1..], sep);
      if s[0] != sep {
        var parts := [[s[0]] + rest[0]] + rest[1..];
        if |rest| > 1 {
          assert parts[1..] == rest[1..];
          assert Join(rest, [sep]) == rest[0] + [sep] + Join(rest[1..], [sep]);
        }
      }
    }
  }

  /** Splitting fields joined with a separator they do not hold gives the
      fields back. */
  lemma {:induction false} SplitOnJoin(fields: seq<string>, sep: char)
    requires |fields| >= 1
    requires forall k | 0 <= k < |fields| :: sep !in fields[k]
    ensures SplitOn(Join(fields, [sep]), sep) == fields
    decreases |fields|
  {
    if |fields| == 1 {
      SplitOnNoSeparator(fields[0], sep);
    } else {
      SplitOnJoin(fields[1..], sep);
      SplitOnCons(fields[0], sep, Join(fields[1..], [sep]));
    }
  }

  /** Lower-casing character by character. */
  lemma LowerAgrees(t: string, u: string)
    requires |t| == |u| && forall i | 0 <= i < |t| :: LowerChar(t[i]) == u[i]
    ensures Lower(t) == u
  {
  }

  /** The lower-cased kind name with an `s` is the route's collection. */
  lemma CollectionOfKindName(kind: Kind)
    ensures Lower(KindName(kind)) + "s" == RouteCollection(kind)
  {
    match kind
    case Deployment =>
      LowerAgrees("Deployment", "deployment");
      assert "deployment" + "s" == "deployments";
    case StatefulSet =>
      LowerAgrees("StatefulSet", "statefulset");
      assert "statefulset" + "s" == "statefulsets";
    case Pod =>
      LowerAgrees("Pod", "pod");
      assert "pod" + "s" == "pods";
  }

  /** Lower-casing adds no slash. */
  lemma LowerKeepsSlashOut(t: string)
    requires '/' !in t
    ensures '/' !in Lower(t)
  {
    var l := Lower(t);
    forall i | 0 <= i < |l|
      ensures l[i] != '/'
    {
      assert l[i] == LowerChar(t[i]) && t[i] != '/';
    }
  }

  /** The path built for a row of a listed kind reaches that kind's rollout
      handler with the row's namespace and name. */
  lemma RolloutPathRoutes(kind: Kind, namespace: string, name: string)
    requires namespace != "" && '/' !in namespace
    requires name != "" && '/' !in name
    ensures MatchRolloutRoute(RolloutPath(namespace, KindName(kind), NameCell(name))) == Some((kind, namespace, name))
  {
    assert NameCell(name) == name;
    assert '/' !in KindName(kind);
    assert SplitOn(RolloutPath(namespace, KindName(kind), name), '/')
        == ["", "api", "v1", Lower(KindName(kind)) + "s", namespace, "rollout", name];
    CollectionOfKindName(kind);
  }

  /** Conversely, every path a rollout route accepts is one the table builds. */
  lemma RoutedPathIsRolloutPath(path: string)
    requires MatchRolloutRoute(path).Some?
    ensures var (kind, namespace, name) := MatchRolloutRoute(path).value;
      path == RolloutPath(namespace, KindName(kind), NameCell(name))
  {
    var parts := SplitOn(path, '/');
    var (kind, namespace, name) := MatchRolloutRoute(path).value;
    CollectionOfKindName(kind);
    JoinSplitOn(path, '/');
    assert parts[3] == RouteCollection(kind);
    assert parts == ["", "api", "v1", Lower(KindName(kind)) + "s", namespace, "rollout", name];
  }

  // ---------------------------------------------------------------------
  // What a restart sends

  /** The POST paths of the checked rows, in table order. */
  function RestartPaths(namespace: string, rows: seq<Resource>, checks: seq<bool>): (paths: seq<string>)
    requires |rows| == |checks|
    ensures |paths| == CountChecked(checks)
    decreases |rows|
  {
    if rows == [] then []
    else
      var n := |rows| - 1;
      RestartPaths(namespace, rows[..n], checks[..n])
        + if checks[n] then [RolloutPath(namespace, rows[n].resourceType, NameCell(rows[n].name))] else []
  }

  /** The checked rows, in table order. */
  function CheckedRows(rows: seq<Resource>, checks: seq<bool>): (picked: seq<Resource>)
    requires |rows| == |checks|
    ensures |picked| == CountChecked(checks)
    ensures forall r | r in picked :: r in rows
    decreases |rows|
  {
    if rows == [] then []
    else
      var n := |rows| - 1;
      CheckedRows(rows[..n], checks[..n]) + if checks[n] then [rows[n]] else []
  }

  /** A row the rollout routes can address. */
  predicate Addressable(r: Resource) {
    KindOfName(r.resourceType).Some? && r.name != "" && '/' !in r.name
  }

  /** The handler and parameters a restart of row `r` should reach. */
  function Target(namespace: string, r: Resource): (Kind, string, string)
    requires Addressable(r)
  {
    (KindOfName(r.resourceType).value, namespace, r.name)
  }

  /** Path `j` reaches the handler of row `j` of `picked`, for every `j`. */
  predicate Routed(namespace: string, paths: seq<string>, picked: seq<Resource>) {
    && |paths| == |picked|
    && forall j | 0 <= j < |paths| ::
         Addressable(picked[j]) && MatchRolloutRoute(paths[j]) == Some(Target(namespace, picked[j]))
  }

  lemma RoutedAppend(namespace: string, paths: seq<string>, picked: seq<Resource>, r: Resource)
    requires namespace != "" && '/' !in namespace
    requires Routed(namespace, paths, picked) && Addressable(r)
    ensures Routed(namespace, paths + [RolloutPath(namespace, r.resourceType, NameCell(r.name))], picked + [r])
  {
    RolloutPathRoutes(KindOfName(r.resourceType).value, namespace, r.name);
    var paths', picked' := paths + [RolloutPath(namespace, r.resourceType, NameCell(r.name))], picked + [r];
    forall j | 0 <= j < |paths'|
      ensures Addressable(picked'[j]) && MatchRolloutRoute(paths'[j]) == Some(Target(namespace, picked'[j]))
    {
      if j < |paths| {
        assert paths'[j] == paths[j] && picked'[j] == picked[j];
      }
    }
  }

  /** Each path of a restart reaches the handler of its row's kind, with the
      namespace and the row's name, one path per checked row and in order. */
  lemma {:induction false} RestartPathsReachHandlers(namespace: string, rows: seq<Resource>, checks: seq<bool>)
    requires |rows| == |checks|
    requires namespace != "" && '/' !in namespace
    requires forall r | r in rows :: Addressable(r)
    ensures Routed(namespace, RestartPaths(namespace, rows, checks), CheckedRows(rows, checks))
    decreases |rows|
  {
    if rows != [] {
      var n := |rows| - 1;
      assert forall r | r in rows[..n] :: r in rows;
      RestartPathsReachHandlers(namespace, rows[..n], checks[..n]);
      if checks[n] {
        RoutedAppend(namespace, RestartPaths(namespace, rows[..n], checks[..n]), CheckedRows(rows[..n], checks[..n]), rows[n]);
      }
    }
  }

  // ---------------------------------------------------------------------
  // The table

  /** Why `performRolloutRestart` stops before sending anything. */
  datatype Refusal = NoNamespace | NothingSelected | Cancelled

  /** The rendered rows with their checkbox and highlight state. */
  class ResourceTable {
    const rows: seq<Resource>
    const checked: array<bool>
    const highlighted: array<bool>
    /** The select-all checkbox drawn in the table header. */
    var header: SelectAllBox

    ghost predicate Valid()
      reads this
    {
      checked.Length == |rows| && highlighted.Length == |rows| && checked != highlighted
    }

    /** The header box shows the rows' state: checked when all are,
        indeterminate when some but not all are. */
    predicate HeaderShowsRows()
      requires Valid()
      reads this, checked
    {
      header == SelectAllState(checked[..])
    }

    /** Freshly rendered rows under a freshly drawn header: nothing checked
        or highlighted, and the select-all box plain and unchecked. */
    constructor (rows: seq<Resource>)
      ensures Valid() && this.rows == rows && fresh(checked) && fresh(highlighted)
      ensures forall i | 0 <= i < |rows| :: !checked[i] && !highlighted[i]
      ensures header == SelectAllBox(false, false)
    {
      this.rows := rows;
      checked := new bool[|rows|](_ => false);
      highlighted := new bool[|rows|](_ => false);
      header := SelectAllBox(false, false);
    }

    /** A row checkbox changed to `on`, as the handler is written: the row's
        highlight follows it, and the new select-all state is computed but
        written to the box looked up when the page loaded, which the header
        drawn for the table has replaced (or, when the page had none, to
        nothing, which throws). The header box keeps its old state. */
    method CheckRow(i: nat, on: bool) returns (box: SelectAllBox)
      requires Valid() && i < |rows|
      modifies checked, highlighted
      ensures checked[..] == old(checked[..])[i := on]
      ensures highlighted[..] == old(highlighted[..])[i := on]
      ensures box == SelectAllState(checked[..])
      ensures header == old(header)
    {
      checked[i] := on;
      highlighted[i] := checked[i];
      box := SelectAllState(checked[..]);
    }

    /** A row checkbox changed to `on`, with the computed state written to
        the header box: the header then shows the rows. */
    method CheckRowSynced(i: nat, on: bool)
      requires Valid() && i < |rows|
      modifies this, checked, highlighted
      ensures Valid() && HeaderShowsRows()
      ensures checked[..] == old(checked[..])[i := on]
      ensures highlighted[..] == old(highlighted[..])[i := on]
    {
      checked[i] := on;
      highlighted[i] := checked[i];
      header := SelectAllState(checked[..]);
    }

    /** The select-all checkbox changed to `on`: every row follows it, and
        the header box, just clicked, is `on` and no longer indeterminate. */
    method SelectAll(on: bool)
      requires Valid()
      modifies this, checked, highlighted
      ensures Valid()
      ensures forall i | 0 <= i < |rows| :: checked[i] == on && highlighted[i] == on
      ensures header == SelectAllBox(on, false)
      ensures |rows| > 0 ==> HeaderShowsRows()
    {
      var index := 0;
      while index < |rows|
        invariant 0 <= index <= |rows|
        invariant forall j | 0 <= j < index :: checked[j] == on && highlighted[j] == on
      {
        checked[index] := on;
        if checked[index] {
          highlighted[index] := true;
        } else {
          highlighted[index] := false;
        }
        index := index + 1;
      }
      header := SelectAllBox(on, false);
      CountCheckedAll(checked[..]);
      CountCheckedNone(checked[..]);
    }

    /** The paths of the checked rows, in table order: the checked boxes
        are collected and the path of each is formed from its row's cells. */
    method CheckedPaths(namespace: string) returns (paths: seq<string>)
      requires Valid()
      ensures paths == RestartPaths(namespace, rows, checked[..])
    {
      paths := [];
      var i := 0;
      while i < |rows|
        invariant 0 <= i <= |rows|
        invariant paths == RestartPaths(namespace, rows[..i], checked[..i])
      {
        if checked[i] {
          paths := paths + [RolloutPath(namespace, rows[i].resourceType, NameCell(rows[i].name))];
        }
        assert rows[..i + 1][..i] == rows[..i] && checked[..i + 1][..i] == checked[..i];
        i := i + 1;
      }
      assert rows[..i] == rows && checked[..i] == checked[..];
    }

    /** Every checked row is unchecked and loses its highlight; the other
        rows keep theirs. */
    method UncheckSelected()
      requires Valid()
      modifies checked, highlighted
      ensures forall i | 0 <= i < |rows| ::
        !checked[i] && highlighted[i] == (old(highlighted[i]) && !old(checked[i]))
    {
      ghost var wasChecked, wasHighlighted := checked[..], highlighted[..];
      var i := 0;
      while i < |rows|
        invariant 0 <= i <= |rows|
        invariant forall j | 0 <= j < i :: !checked[j] && highlighted[j] == (wasHighlighted[j] && !wasChecked[j])
        invariant forall j | i <= j < |rows| :: checked[j] == wasChecked[j] && highlighted[j] == wasHighlighted[j]
      {
        if checked[i] {
          checked[i] := false;
          highlighted[i] := false;
        }
        i := i + 1;
      }
    }

    /** `performRolloutRestart`: with a namespace, at least one checked row
        and the user's confirmation, the paths of the checked rows are
        returned (the requests are sent in that order) and those rows are
        unchecked and unhighlighted; otherwise nothing changes. */
    method PerformRolloutRestart(namespace: string, confirmed: bool) returns (outcome: Result<seq<string>, Refusal>)
      requires Valid()
      modifies checked, highlighted
      ensures namespace == "" ==> outcome == Err(NoNamespace)
      ensures namespace != "" && CountChecked(old(checked[..])) == 0 ==> outcome == Err(NothingSelected)
      ensures namespace != "" && CountChecked(old(checked[..])) > 0 && !confirmed ==> outcome == Err(Cancelled)
      ensures namespace != "" && CountChecked(old(checked[..])) > 0 && confirmed ==> outcome.Ok?
      ensures outcome.Err? ==> checked[..] == old(checked[..]) && highlighted[..] == old(highlighted[..])
      ensures outcome.Ok? ==> outcome.value == RestartPaths(namespace, rows, old(checked[..]))
      ensures outcome.Ok? ==> forall i | 0 <= i < |rows| ::
        !checked[i] && highlighted[i] == (old(highlighted[i]) && !old(checked[i]))
    {
      if namespace == "" {
        return Err(NoNamespace);
      }
      var paths := CheckedPaths(namespace);
      if |paths| == 0 {
        return Err(NothingSelected);
      }
      if !confirmed {
        return Err(Cancelled);
      }
      UncheckSelected();
      return Ok(paths);
    }
  }

  /** Checking the only row of a fresh table through the handler as written
      leaves the header box unchecked although every row is checked. */
  method StaleHeaderExample(r: Resource) returns (t: ResourceTable)
    ensures t.Valid() && t.checked[..] == [true]
    ensures t.header == SelectAllBox(false, false)
    ensures t.header != SelectAllState(t.checked[..])
  {
    t := new ResourceTable([r]);
    var _ := t.CheckRow(0, true);
  }
}
