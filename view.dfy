/** How the dashboard presents one row: whether it shows as still updating
    (`isResourceUpdating`) and how its labels are written (`formatLabels`). */
module ResourceView {
  import opened Wrappers
  import opened Text
  import opened ResourceFilter

  // ---------------------------------------------------------------------
  // isResourceUpdating

  /** `ready.split('/').map(Number)` destructured into its first two
      entries. A missing second entry (`undefined`) and NaN are both None. */
  function ReadyCounts(ready: string): (Option<int>, Option<int>) {
    var parts := SplitOn(ready, '/');
    (ParseNumber(parts[0]), if |parts| > 1 then ParseNumber(parts[1]) else None)
  }

  /** A ready text without a slash reads as its own number and a missing
      total. */
  lemma ReadyCountsWithoutSlash(ready: string)
    requires '/' !in ready
    ensures ReadyCounts(ready) == (ParseNumber(ready), None)
  {
    SplitOnNoSeparator(ready, '/');
  }

  /** `readyCount !== totalCount`: only two equal numbers compare equal, so
      NaN or a missing count differs from everything, itself included. */
  function CountsDiffer(counts: (Option<int>, Option<int>)): (differ: bool)
    ensures counts.0.None? || counts.1.None? ==> differ
    ensures counts.0.Some? && counts.0 == counts.1 ==> !differ
  {
    !(counts.0.Some? && counts.1.Some? && counts.0.value == counts.1.value)
  }

  /** The resource types whose rows can be drawn as updating. */
  predicate ShowsProgress(resourceType: string) {
    resourceType == "deployment" || resourceType == "statefulset" || resourceType == "pod"
  }

  /** Whether a row of the selected type is drawn as still updating. Only
      the three listed types can be, and a pod that is not Running always is. */
  function IsResourceUpdating(resource: Resource, resourceType: string): (updating: bool)
    ensures updating ==> ShowsProgress(resourceType)
    ensures resourceType == "pod" && resource.status != "Running" ==> updating
  {
    if resourceType == "deployment" || resourceType == "statefulset" then
      CountsDiffer(ReadyCounts(resource.ready))
    else if resourceType == "pod" then
      resource.status != "Running" || CountsDiffer(ReadyCounts(resource.ready))
    else
      false
  }

  /** A row of those types whose ready text has no slash is updating, since
      its total reads as undefined. */
  lemma UnslashedReadyUpdating(resource: Resource, resourceType: string)
    requires ShowsProgress(resourceType) && '/' !in resource.ready
    ensures IsResourceUpdating(resource, resourceType)
  {
    ReadyCountsWithoutSlash(resource.ready);
  }

  /** `"a/b"` for two integers reads back as the two integers. */
  lemma ReadyCountsOfRatio(a: int, b: int)
    ensures ReadyCounts(IntToString(a) + "/" + IntToString(b)) == (Some(a), Some(b))
  {
    var x, y := IntToString(a), IntToString(b);
    IntToStringChars(a, '/');
    IntToStringChars(b, '/');
    SplitOnCons(x, '/', y);
    SplitOnNoSeparator(y, '/');
    ParseNumberOfIntToString(a);
    ParseNumberOfIntToString(b);
  }

  /** A deployment or stateful set whose ready text is a plain ratio is
      updating exactly when the two counts differ. */
  lemma RatioUpdating(resource: Resource, resourceType: string, a: int, b: int)
    requires resourceType == "deployment" || resourceType == "statefulset"
    requires resource.ready == IntToString(a) + "/" + IntToString(b)
    ensures IsResourceUpdating(resource, resourceType) <==> a != b
  {
    ReadyCountsOfRatio(a, b);
  }

  /** A pod is updating when it is not Running or its counts differ. */
  lemma PodRatioUpdating(resource: Resource, a: int, b: int)
    requires resource.ready == IntToString(a) + "/" + IntToString(b)
    ensures IsResourceUpdating(resource, "pod") <==> resource.status != "Running" || a != b
  {
    ReadyCountsOfRatio(a, b);
  }

  /** A ready ratio followed by a note such as `" (Not Ready)"` has an
      unreadable total. */
  lemma ReadyCountsOfAnnotatedRatio(a: int, b: int, note: string, k: nat)
    requires k < |note| && OutsideNumerals(note[k]) && '/' !in note
    requires !IsSpace(JsSpace, note[|note| - 1])
    ensures ReadyCounts(IntToString(a) + "/" + IntToString(b) + note) == (Some(a), None)
  {
    var x, y := IntToString(a), IntToString(b) + note;
    IntToStringChars(a, '/');
    IntToStringChars(b, '/');
    assert IntToString(a) + "/" + IntToString(b) + note == x + "/" + y;
    SplitOnCons(x, '/', y);
    SplitOnNoSeparator(y, '/');
    ParseNumberOfIntToString(a);
    ParseNumberOfIntWithTail(b, note, k);
  }

  /** So a row whose ready text carries a note shows as updating whatever
      its counts. */
  lemma AnnotatedRatioUpdating(resource: Resource, resourceType: string, a: int, b: int, note: string, k: nat)
    requires resourceType == "deployment" || resourceType == "statefulset" || resourceType == "pod"
    requires k < |note| && OutsideNumerals(note[k]) && '/' !in note
    requires !IsSpace(JsSpace, note[|note| - 1])
    requires resource.ready == IntToString(a) + "/" + IntToString(b) + note
    ensures IsResourceUpdating(resource, resourceType)
  {
    ReadyCountsOfAnnotatedRatio(a, b, note, k);
  }

  // ---------------------------------------------------------------------
  // formatLabels

  type Label = (string, string)

  function LabelSpan(entry: Label): string {
    "<span class=\"label-cell\">" + entry.0 + ": " + entry.1 + "</span>"
  }

  /** The label spans side by side (`map(...).join('')`). */
  function LabelSpans(labels: seq<Label>): (html: string)
    ensures labels != [] ==> |html| > 0 && html[0] == '<'
    decreases |labels|
  {
    if labels == [] then "" else LabelSpan(labels[0]) + LabelSpans(labels[1..])
  }

  /** The collapsed block of the labels past the second, and its toggle link. */
  function HiddenBlock(hidden: seq<Label>): string {
    "<span class=\"hidden-labels\">" + LabelSpans(hidden) + "</span>\n        "
      + "<a class=\"toggle-labels\" href=\"#\">(+" + IntToString(|hidden|) + " more)</a>"
  }

  /** The labels cell: "No labels", or the first two labels visible and the
      rest collapsed behind a "(+n more)" toggle, present only when there is
      a rest. */
  function FormatLabels(labels: seq<Label>): (html: string)
    ensures html == "No labels" <==> labels == []
    ensures 0 < |labels| <= 2 ==> html == LabelSpans(labels)
    ensures |labels| > 2 ==> html == LabelSpans(labels[..2]) + HiddenBlock(labels[2..])
  {
    if labels == [] then "No labels"
    else
      var shown := if |labels| < 2 then |labels| else 2;
      var visible, hidden := labels[..shown], labels[shown..];
      assert |labels| <= 2 ==> visible == labels;
      var html := LabelSpans(visible) + if |hidden| > 0 then HiddenBlock(hidden) else "";
      assert html[0] == '<' && "No labels"[0] == 'N';
      html
  }

  lemma {:induction false} LabelSpansAppend(xs: seq<Label>, ys: seq<Label>)
    ensures LabelSpans(xs + ys) == LabelSpans(xs) + LabelSpans(ys)
    decreases |xs|
  {
    if xs == [] {
      assert xs + ys == ys;
    } else {
      assert (xs + ys)[1..] == xs[1..] + ys;
      LabelSpansAppend(xs[1..], ys);
    }
  }

  /** Every label is written once, in order: the visible spans followed by
      the hidden ones are the spans of all labels, and the toggle counts the
      hidden ones. */
  lemma FormatLabelsShowsEveryLabel(labels: seq<Label>)
    requires |labels| > 2
    ensures LabelSpans(labels[..2]) + LabelSpans(labels[2..]) == LabelSpans(labels)
    ensures FormatLabels(labels) == LabelSpans(labels[..2]) + HiddenBlock(labels[2..])
    ensures |labels[2..]| == |labels| - 2
  {
    assert labels[..2] + labels[2..] == labels;
    LabelSpansAppend(labels[..2], labels[2..]);
  }
}
