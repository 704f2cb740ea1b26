# Kubernetes rollout dashboard — a verified model of its core

The dashboard is a small web application. Its Go backend keeps a table of
sessions, one for each uploaded kubeconfig. It lists the deployments,
stateful sets and pods of a namespace, and restarts them by marking their pod
templates. Its JavaScript front end filters the rows with a label query,
shows which rows are still updating, and sends one restart request for each
checked row.

This project models the computations that decide what the user sees and what
gets restarted:

- **text.dfy** (`Text`): the string and number primitives the two halves use.
  - JavaScript's `split(/\s+/)`, `trim`, `toLowerCase` (ASCII), `includes`,
    `split('/')` and `join`, and `Number()` on decimal integers.
  - Go's `strings.TrimSpace` and `%d`.
  - Round trips are proved where the dashboard relies on one: `%d` read
    back by `Number`, words joined by spaces split back by `split(/\s+/)`,
    and segments joined by `/` split back by `split('/')`.
  - `trim`, `toLowerCase` and `Number` are specified by what they keep and
    what they discard.
- **query.dfy** (`Query`): the label-query fold of `evaluateCondition`.
  - It is a function over the tokens, together with the loop that computes it.
  - Lemmas cover single tokens, the `||` rule and the absence of operator
    precedence.
- **filter.dfy** (`ResourceFilter`): `filterDeployments`,
  `filterStatefulSets` and `filterPods`.
  - It includes the defect in `filterDeployments` and its correction.
- **view.dfy** (`ResourceView`): `isResourceUpdating` (the ready-ratio
  parse) and `formatLabels`.
- **table.dfy** (`RolloutTable`): the table's checkboxes, the select-all rule,
  `performRolloutRestart`, the POST paths it builds, and the rollout routes
  of app.go that receive those paths.
  - It includes the row handler's stale select-all box and its correction.
- **age.dfy** (`Age`): `formatDuration`, using Go's truncating `/` and `%`.
- **workload.dfy** (`Workload`): the Ready message of deployments and stateful
  sets, with later checks overriding earlier ones.
- **pods.dfy** (`Pods`): the per-pod loop over containers, covering ready
  count, restart sum in `int32` and the status text.
- **restart.dfy** (`Restart`): the `kubectl.kubernetes.io/restartedAt`
  annotation that a rollout restart sets.
- **sessions.dfy** (`Sessions`): the session table and its operations.
  - It covers the authorisation guard of every handler, upload, logout and
    one sweep of the cleanup.
  - The clock is passed in as nanoseconds.
- **consistency.dfy** (`Consistency`): how the two halves agree. The Ready
  text the backend writes decides, through `isResourceUpdating`, whether a row
  is drawn as updating.

## Model

| member | source | states |
|---|---|---|
| Text.Lower | public/js/dashboard.js:287 | `toLowerCase` keeps the length and lower-cases each character in place |
| Text.Trim | public/js/dashboard.js:275 | the trimmed text neither starts nor ends with white space and is no longer than the input |
| Text.TrimIsInfix | public/js/dashboard.js:275 | the trimmed text is an infix of the input with nothing but white space before and after it, so with Trim's ends it is the longest such infix |
| Text.TrimLeftDropsSpace | handlers/handlers.go:415 | every character cut from the front is white space |
| Text.TrimRightDropsSpace | handlers/handlers.go:415 | every character cut from the back is white space |
| Text.TrimBlank | public/js/dashboard.js:275 | blank text trims to the empty text |
| Text.SplitWhitespaceFields | public/js/dashboard.js:272 | no field holds white space, only the first and last can be empty, and the first is not empty when the text starts with a non-space |
| Text.TrimUnpadded | handlers/handlers.go:415 | trimming text that does not start or end with white space returns it unchanged |
| Text.SplitWhitespaceOfWord | public/js/dashboard.js:272 | a query without white space splits into exactly itself |
| Text.SplitWhitespaceCons | public/js/dashboard.js:272 | a word followed by one space splits off as the first field, and the rest splits as before |
| Text.SplitWhitespaceJoin | public/js/dashboard.js:272 | words without white space, joined by single spaces, split back into the same words |
| Text.SplitOnNoSeparator | public/js/dashboard.js:487 | `split('/')` of text without a slash is that text alone |
| Text.SplitOnCons | public/js/dashboard.js:487 | `split('/')` of `x + "/" + y`, with no slash in `x`, is `x` followed by the fields of `y` |
| Text.IntToString | handlers/handlers.go:128 | `%d` gives digits, optionally after one minus sign |
| Text.IntToStringChars | handlers/handlers.go:128 | a printed integer contains no character other than digits and `-`, so in particular no `/` |
| Text.DigitsValueOfNatToString | handlers/handlers.go:128 | the decimal digits of a natural number read back as that number |
| Text.ParseNumberOfIntToString | public/js/dashboard.js:487 | `Number` of an integer printed by Go's `%d` is that integer |
| Text.ParseNumberChars | public/js/dashboard.js:487 | blank text reads as 0, and text holding a character other than digits, white space and signs is NaN |
| Text.ParseNumberOfIntWithTail | public/js/dashboard.js:487 | a printed integer followed by text holding a character no numeral holds, such as a parenthesis, is NaN |
| Query.Evaluate | public/js/dashboard.js:271 | an empty condition is satisfied by every value |
| Query.FoldFrom | public/js/dashboard.js:273-290 | the fold can end true from a false accumulator only if an or-operator follows |
| Query.EvaluateCondition | public/js/dashboard.js:270-292 | the index-skipping loop returns exactly the fold over the split condition |
| Query.ConditionStep | public/js/dashboard.js:275-290 | one pass of the loop body moves one or two tokens on and leaves the fold of the rest unchanged |
| Query.PlainToken | public/js/dashboard.js:283-289 | a query of one plain token holds iff that token's test holds: a whole word in strict mode, case-insensitive containment otherwise |
| Query.NegatedToken | public/js/dashboard.js:280-281 | `!tok` holds iff the value does not contain `tok`, case-sensitively, in both modes |
| Query.WholeWordIsContained | public/js/dashboard.js:283-289 | a case-insensitive whole-word match is also a case-insensitive substring match |
| Query.StrictTokenImpliesLoose | public/js/dashboard.js:283-289 | for a single plain token, strict mode accepts no value that the default mode rejects |
| Query.FoldWithoutOr | public/js/dashboard.js:274-290 | without an or-operator, the query is the conjunction of its tokens' tests, so `&&` changes nothing and order does not matter |
| Query.FoldMonotone | public/js/dashboard.js:273-290 | a true accumulator never gives a false result where a false one gives true |
| Query.EvaluateWords | public/js/dashboard.js:271-273 | a query written as words joined by single spaces is the fold over those words |
| Query.FoldOrOfTwo | public/js/dashboard.js:277-279 | the fold over `a`, or-operator, `b` is `a`'s test or case-sensitive containment of `b` |
| Query.OrOfTwo | public/js/dashboard.js:277-279 | the query `a`, or-operator, `b` holds iff `a`'s test holds or the value contains `b` case-sensitively, in either mode |
| Query.FoldOrThenAnd | public/js/dashboard.js:274-290 | the fold over `a`, or-operator, `b`, `&&`, `c` is `(a or b) and c` |
| Query.OrThenAnd | public/js/dashboard.js:274-290 | `a`, or-operator, `b`, `&&`, `c` is evaluated left to right as `(a or b) and c`, with no operator precedence |
| Query.FoldTrailingOr | public/js/dashboard.js:278 | a final or-operator ORs in containment of the text "undefined" |
| Query.TrailingOr | public/js/dashboard.js:278 | the query `a` followed by an or-operator holds iff `a`'s test holds or the value contains "undefined" |
| ResourceFilter.FilterResources | public/js/dashboard.js:246-254 | the kept rows are a subsequence of the rows, in the same order, and a row is kept iff its name is selected (or none are) and its `k:v` label text satisfies the query |
| ResourceFilter.FilterStatefulSets | public/js/dashboard.js:245-255 | order-preserving subsequence of exactly the selected stateful sets whose labels match |
| ResourceFilter.FilterPods | public/js/dashboard.js:257-267 | order-preserving subsequence of exactly the selected pods whose labels match |
| ResourceFilter.FilterDeployments | public/js/dashboard.js:233-243 | the corrected deployment filter keeps an order-preserving subsequence of exactly the selected deployments whose labels match |
| ResourceFilter.FilterDeploymentsAsWritten | public/js/dashboard.js:233-235 | the filter as written succeeds iff the list is empty, and otherwise throws a ReferenceError on `selectedNames` |
| ResourceFilter.NoCriteriaKeepsAll | public/js/dashboard.js:247-252 | with no name selected and an empty query, every row is kept |
| ResourceFilter.FilterAppend | public/js/dashboard.js:246 | filtering a concatenation filters each part and concatenates the results |
| ResourceFilter.FilterIdempotent | public/js/dashboard.js:246 | filtering the result again with the same criteria changes nothing |
| ResourceFilter.DeploymentFilterThrows | public/js/dashboard.js:233-235 | one deployment with no criteria makes the filter as written throw, while the corrected filter keeps that deployment |
| ResourceView.ReadyCountsWithoutSlash | public/js/dashboard.js:487 | a ready text without a slash reads as its own number and a missing total |
| ResourceView.CountsDiffer | public/js/dashboard.js:489 | NaN or a missing count differs from everything; two equal numbers do not differ |
| ResourceView.IsResourceUpdating | public/js/dashboard.js:484-498 | only deployments, stateful sets and pods can be updating, and a pod that is not Running is |
| ResourceView.UnslashedReadyUpdating | public/js/dashboard.js:487-495 | a row of those types whose ready text has no slash is updating, since its total reads as undefined |
| ResourceView.ReadyCountsOfRatio | public/js/dashboard.js:487 | `"a/b".split('/').map(Number)` of two printed integers gives back the two integers |
| ResourceView.RatioUpdating | public/js/dashboard.js:486-492 | a deployment or stateful set with a plain `a/b` ready text is updating iff `a != b` |
| ResourceView.PodRatioUpdating | public/js/dashboard.js:493-495 | a pod with ready text `a/b` is updating iff its status is not "Running" or `a != b` |
| ResourceView.ReadyCountsOfAnnotatedRatio | public/js/dashboard.js:487 | a ratio followed by a note like " (Not Ready)" parses its total as NaN |
| ResourceView.AnnotatedRatioUpdating | public/js/dashboard.js:484-495 | a row of a known type whose ready text carries a note is updating, whatever its counts |
| ResourceView.LabelSpans | public/js/dashboard.js:392-394 | the spans of a non-empty label list start with a tag |
| ResourceView.FormatLabels | public/js/dashboard.js:386-406 | "No labels" iff there are none; with one or two labels, just their spans; with more, the first two spans, then the rest in a hidden span and a "(+n more)" toggle |
| ResourceView.LabelSpansAppend | public/js/dashboard.js:392-399 | the spans of a concatenation are the spans of each part, in order |
| ResourceView.FormatLabelsShowsEveryLabel | public/js/dashboard.js:390-403 | with more than two labels, every label is written once and in order, and the toggle counts the hidden ones |
| RolloutTable.CountChecked | public/js/dashboard.js:415 | the number of checked rows is at most the number of rows |
| RolloutTable.CountCheckedAll | public/js/dashboard.js:55 | all rows are checked iff the count of checked rows is the number of rows |
| RolloutTable.CountCheckedNone | public/js/dashboard.js:56 | no row is checked iff the count is zero |
| RolloutTable.SelectAllState | public/js/dashboard.js:54-58 | the select-all state the row handler computes is checked iff every row is, and indeterminate iff some rows but not all are |
| RolloutTable.KindOfName | handlers/handlers.go:167 | a recognised resource-type cell is the name of the kind it maps to |
| RolloutTable.MatchRolloutRoute | app.go:34-38 | a matched route's namespace and name are non-empty single path segments |
| RolloutTable.JoinSplitOn | app.go:34-38 | joining the fields of `split('/')` with `/` gives the path back |
| RolloutTable.SplitOnJoin | app.go:34-38 | fields without a slash, joined with `/`, split back into the same fields |
| RolloutTable.CollectionOfKindName | public/js/dashboard.js:431 | the lower-cased type cell plus "s" is the collection segment of that kind's route |
| RolloutTable.RolloutPath | public/js/dashboard.js:431-433 | with no slash in the namespace, type cell or name cell, a restart path splits into `"", api, v1, <type>s, <namespace>, rollout, <name>` |
| RolloutTable.RolloutPathRoutes | public/js/dashboard.js:429-433 | the path built for a row of a known kind reaches that kind's rollout handler with the namespace and the row's name |
| RolloutTable.RoutedPathIsRolloutPath | app.go:34-38 | every path a rollout route accepts is exactly the path the table builds for its kind, namespace and name |
| RolloutTable.RestartPaths | public/js/dashboard.js:429-433 | one restart path per checked row |
| RolloutTable.CheckedRows | public/js/dashboard.js:415 | one entry per checked row, each a row of the table |
| RolloutTable.RoutedAppend | public/js/dashboard.js:429-433 | adding the path of one more addressable row keeps every path routed to its own row |
| RolloutTable.RestartPathsReachHandlers | public/js/dashboard.js:429-442 | with a namespace, the i-th restart path reaches the handler of the i-th checked row, with that namespace and name |
| RolloutTable.ResourceTable.constructor | public/js/dashboard.js:305-328 | freshly rendered rows are neither checked nor highlighted, and the header's select-all box is unchecked and not indeterminate |
| RolloutTable.ResourceTable.CheckRow | public/js/dashboard.js:48-59 | a row checkbox change sets that row's check and highlight, computes the select-all state of the new checks, and leaves the header box as it was |
| RolloutTable.ResourceTable.CheckRowSynced | public/js/dashboard.js:48-59 | the corrected handler also writes the computed state to the header box, which then shows the rows |
| RolloutTable.StaleHeaderExample | public/js/dashboard.js:6 | checking the only row of a fresh table through the handler as written leaves the header box unchecked while every row is checked |
| RolloutTable.ResourceTable.SelectAll | public/js/dashboard.js:332-344 | every row takes the select-all value as its check and highlight, the clicked header box is that value and not indeterminate, and it then shows the rows |
| RolloutTable.ResourceTable.CheckedPaths | public/js/dashboard.js:415-433 | the paths of the checked rows, in table order |
| RolloutTable.ResourceTable.UncheckSelected | public/js/dashboard.js:444-447 | every checked row is unchecked and loses its highlight, and unchecked rows keep theirs |
| RolloutTable.ResourceTable.PerformRolloutRestart | public/js/dashboard.js:409-447 | refuses, changing nothing, without a namespace, without a checked row or without confirmation; with all three it succeeds, returns the checked rows' paths in order, and unchecks and unhighlights those rows |
| Age.GoDiv | handlers/handlers.go:220 | the quotient leaves a remainder smaller than the divisor and of the dividend's sign, which makes it the quotient rounded toward zero |
| Age.GoDivOfNatural | handlers/handlers.go:220-221 | on a non-negative dividend Go's `/` and `%` agree with the Euclidean ones |
| Age.GoMod | handlers/handlers.go:221 | Go's `%` is the dividend minus the truncated quotient times the divisor, with the dividend's sign |
| Age.FormatDuration | handlers/handlers.go:219-236 | the age is a count followed by one of the unit letters d, h, m, s, and the count of a non-negative duration is unsigned digits |
| Age.DurationUnits | handlers/handlers.go:220-226 | for a non-negative duration, hours < 24, minutes < 60 and seconds < 60, and the units add back to the duration to within a second |
| Age.FormatDurationLargestUnit | handlers/handlers.go:228-235 | a non-negative duration shows only its largest non-zero unit, counted whole from the duration: days, then hours, then minutes, else seconds (so zero is "0s") |
| Age.GoModNested | handlers/handlers.go:221-225 | taking the remainder by a day or an hour first leaves the remainder by the next smaller unit unchanged, for either sign |
| Age.NegativeUnits | handlers/handlers.go:220-226 | a negative duration has no positive unit, and its seconds are those of its part below a minute |
| Age.FormatNegativeDuration | handlers/handlers.go:228-235 | a negative duration shows only its seconds below a minute, between "-59s" and "0s" |
| Workload.DeploymentReady | handlers/handlers.go:117-158 | total is spec replicas or status replicas; "(Not Ready)" iff ready < total; otherwise "(Failed)" iff a ReplicaFailure condition is true; otherwise "(Updating...)" iff progressing with lagging counts; "(Unavailable...)" iff not progressing and unavailable > 0; the count shown is ready for the plain and not-ready messages and available otherwise |
| Workload.DeploymentReadyMessage | handlers/handlers.go:117-158 | the condition loops and overriding assignments produce exactly the rendered deployment message |
| Workload.StatefulSetReady | handlers/handlers.go:262-299 | total is spec replicas or 0; never "(Not Ready)"; "(Failed)" iff a ReplicaFailure condition is true; otherwise "(Unavailable...)" iff available < total; otherwise "(Updating...)" iff progressing with fewer updated than total |
| Workload.StatefulSetReadyMessage | handlers/handlers.go:262-299 | the condition loops and overriding assignments produce exactly the rendered stateful-set message |
| Pods.Wrap32 | handlers/handlers.go:402 | the wrapped value lies in `int32` and differs from the exact value by a multiple of 2^32 |
| Pods.ReadyCount | handlers/handlers.go:403-405 | no more containers are ready than are counted |
| Pods.RestartSum | handlers/handlers.go:402 | the exact sum of `n` restart counts lies within `n` times the `int32` range, and is non-negative when every count is |
| Pods.NotReadyReasons | handlers/handlers.go:393-400 | the collected text is empty or ends in a space |
| Pods.PodStatus | handlers/handlers.go:413-418 | the status is the trimmed reasons when any text was collected, and the phase otherwise |
| Pods.SummarizePod | handlers/handlers.go:386-418 | panics with an index out of range iff the pod reports fewer statuses than containers; otherwise ready is `"<ready>/<containers>"`, restarts is the `int32`-wrapped sum, and status is the trimmed reasons or the phase |
| Pods.AppendReasons | handlers/handlers.go:393-400 | one container adds its waiting and then terminated reason, each with a space, only when it is not ready |
| Pods.WrapAdd | handlers/handlers.go:402 | adding in `int32` step by step equals wrapping the exact sum once |
| Pods.NoReasonsIffNoStates | handlers/handlers.go:393-400 | no reason text is collected iff every non-ready container is neither waiting nor terminated |
| Pods.ReasonTextEmpty | handlers/handlers.go:393-400 | one container adds no text iff it is ready or in neither state |
| Pods.PhaseShownIffNoStates | handlers/handlers.go:413-418 | the status falls back to the pod phase when no non-ready container is waiting or terminated |
| Pods.ReasonStatusTrimmed | handlers/handlers.go:414-415 | when some reason is collected, the status is the reasons without surrounding white space |
| Pods.BlankReasonHidesPhase | handlers/handlers.go:414-415 | a blank waiting reason still counts as collected, so the status is empty rather than the phase |
| Pods.ReadyCountAll | handlers/handlers.go:403-405 | the ready count equals the container count iff every container is ready |
| Restart.Restarted | handlers/handlers.go:203-206 | the annotations gain `restartedAt = now`, and every other key is kept with its value, with a missing map treated as empty |
| Restart.RestartedTwice | handlers/handlers.go:344-347 | restarting again only moves the timestamp |
| Restart.PodTemplate.MarkRestarted | handlers/handlers.go:344-347 | the template's annotations become the restarted annotations of the old ones |
| Sessions.AfterUpload | handlers/handlers.go:527-537 | the new token maps to the new session expiring an hour later, the caller's old token is gone, and every other entry is unchanged |
| Sessions.AfterLogout | handlers/handlers.go:560-563 | the caller's token is gone and every other entry is unchanged |
| Sessions.Unexpired | handlers/handlers.go:630-634 | exactly the entries not expired at `now` remain, with their sessions |
| Sessions.UploadAuthorizesForAnHour | handlers/handlers.go:532-537 | a new session's token is authorised exactly until one hour after the upload |
| Sessions.UploadRevokesOldToken | handlers/handlers.go:527-530 | after an upload, the caller's previous token authorises nothing |
| Sessions.LogoutRevokesOnlyCaller | handlers/handlers.go:560-563 | logout revokes the caller's token and changes no other token's authorisation |
| Sessions.SweepKeepsDecisions | handlers/handlers.go:628-634 | a sweep at `now` changes no authorisation decision at `now` or later |
| Sessions.SweepIdempotent | handlers/handlers.go:628-634 | sweeping twice at the same time removes nothing more |
| Sessions.SessionTable.AuthCheck | handlers/handlers.go:548-557 | succeeds iff the cookie names a session that is not expired, and then returns its user name |
| Sessions.SessionTable.Upload | handlers/handlers.go:527-537 | returns the new token and updates the table as in AfterUpload |
| Sessions.SessionTable.Logout | handlers/handlers.go:560-563 | updates the table as in AfterLogout |
| Sessions.SessionTable.CleanupSessions | handlers/handlers.go:630-634 | deleting expired entries while walking the map leaves exactly the unexpired ones |
| Consistency.RenderedMessageUpdating | handlers/handlers.go:128-158 | a rendered Ready message marks its row as updating iff it carries a note or its counts differ |
| Consistency.DeploymentRowUpdating | handlers/handlers.go:117-158 | a deployment row is drawn as updating iff ready != total, a failure is reported, replicas are unavailable, or a rollout is in progress with lagging counts |
| Consistency.StatefulSetRowUpdating | handlers/handlers.go:262-299 | a stateful-set row is drawn as updating iff ready != total, a failure is reported, replicas are missing, or a rollout is in progress with fewer updated than total |
| Consistency.PodRowUpdating | handlers/handlers.go:386-418 | a pod row is drawn as updating iff it is not Running or some container is not ready |

## Left out

- HTTP plumbing is not modelled: gin routing, `c.JSON`, status codes and cookie headers. A cookie is an `Option<string>`, where None is a cookie that cannot be read.
- Calls into client-go are left out: List, Get, Update and the pod Delete of `RolloutRestartPod`. So are `validateKubeConfig`, kubeconfig parsing and the user name taken from it. They are calls into libraries, and the model takes their results as inputs.
- `LoggingMiddleware` is left out because it is file I/O.
- The `CleanupSessions` goroutine is modelled as one sweep. Its endless five-minute sleep loop and the unsynchronised map access it shares with the handlers are concurrency.
- Clocks are parameters. `time.Now`, `time.Since` and `metav1.Now().String()` become a `now` argument or a duration argument. The text format of the restart timestamp is not modelled.
- Sessions.SessionTable.Upload: one `now` is used for both the token and the expiry. The source reads the clock twice (lines 532 and 536).
- The DOM is not modelled: `displayResources`, `generateResourceRow` beyond the name cell, the other cells (UpToDate, Age, Restarts), event wiring, the name checkboxes (`populateNameCheckboxes`, `filterNameCheckboxes`, `updateNameFilters`), `fetch*`, `alert` and `console`. `confirm` becomes the `confirmed` parameter.
- RolloutTable.ResourceTable.PerformRolloutRestart does not model the outcome of the POST requests. They are returned in the order they are sent, and each failure is reported to the user and not acted upon. The polling by `setInterval`/`setTimeout` afterwards only re-runs the search.
- The select-all handler is bound to the box found when the table is rendered. That box is replaced each time headers are re-rendered, so the model takes the box's current value as the parameter of SelectAll.
- RolloutTable.ResourceTable.CheckRow does not model the TypeError thrown when the page had no select-all box at load. The row's check and highlight are set before it, and the header box is unchanged either way.
- Rendering a new table replaces the checkboxes, so the model has a fresh ResourceTable per rendering.
- RolloutTable.MatchRolloutRoute treats an empty `:namespace` or `:name` segment as unmatched; this is the model's choice, since the router's own matching is not part of this model. URL escaping of names is not modelled.
- Query.PlainToken reads strict-mode tokens literally. `new RegExp` would treat metacharacters such as `.`, `*` or `(` specially, or throw on an invalid pattern.
- Case is folded for ASCII letters only. Unicode case mapping is not modelled.
- Text.ParseNumber reads only decimal integers with an optional sign and surrounding white space. Decimal fractions, exponents, hex or binary forms and `Infinity` are NaN in the model. They do not occur in ready texts printed with `%d`. Its lemmas that conclude NaN only use tails with a character outside every numeral.
- Workload.DeploymentReadyMessage keeps the message as its counts and note and formats it once at the end. The source formats it at every override, and the text is the same.
- Pods.SummarizePod returns Go's index-out-of-range panic as an error value. The recovery middleware then answers the whole pod list with a 500, which is HTTP plumbing and not modelled.
- The `restarts` of a row is kept as an integer. How JavaScript prints it is not modelled.

## Findings

| source | as written | input that shows it | evidently intended | confidence | as-written member | corrected member |
|---|---|---|---|---|---|---|
| public/js/dashboard.js:233-235 | `filterDeployments` names its second parameter `searchTerm`, but its callback reads `selectedNames`, which is not in scope there | any non-empty deployment list, e.g. one deployment with no names selected and an empty label query | read the selected names passed as the second argument, as `filterStatefulSets` and `filterPods` do | not executed | ResourceFilter.FilterDeploymentsAsWritten (with ResourceFilter.DeploymentFilterThrows) | ResourceFilter.FilterDeployments |
| public/js/dashboard.js:57-58 | the row handler writes the select-all state to `elements.selectAll`, the box looked up at page load (line 6); drawing a table clears the header (line 299) and creates a new `#selectAll` (line 309), so the box the user sees never gets the state, and with no box at load the write throws a TypeError | check the only row of a freshly drawn table | write the state to the header box of the current table | not executed | RolloutTable.ResourceTable.CheckRow (with RolloutTable.StaleHeaderExample) | RolloutTable.ResourceTable.CheckRowSynced |
