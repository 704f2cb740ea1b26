/** The pod row (`GetPods` in handlers/handlers.go): one pass over the spec's
    containers, reading the container status at the same index, counts the
    ready containers, sums the restart counts in a 32-bit integer, and
    collects the waiting and terminated reasons of the containers that are
    not ready. The status shown is those reasons, trimmed, or the pod phase
    when none were collected. */
module Pods {
  import opened Wrappers
  import opened Text

  /** Go's `int32`. */
  type Int32 = x: int | -0x8000_0000 <= x < 0x8000_0000

  /** Two's-complement wrap-around of an integer into 32 bits. */
  function Wrap32(x: int): (r: Int32)
    ensures (r - x) % 0x1_0000_0000 == 0
  {
    (x + 0x8000_0000) % 0x1_0000_0000 - 0x8000_0000
  }

  /** The fields of one container status the row reads; a reason is present
      when the container is in that state. */
  datatype ContainerStatus = ContainerStatus(
    ready: bool,
    restartCount: Int32,
    waitingReason: Option<string>,
    terminatedReason: Option<string>)

  /** The pod: how many containers its spec lists, the reported container
      statuses, and its phase. */
  datatype Pod = Pod(containers: nat, statuses: seq<ContainerStatus>, phase: string)

  /** The three columns the row gets. */
  datatype PodRow = PodRow(ready: string, status: string, restarts: Int32)

  /** What one container adds to the reasons: each present reason followed
      by a space, and nothing when the container is ready. */
  function ReasonText(c: ContainerStatus): string {
    if c.ready then ""
    else
      (if c.waitingReason.Some? then c.waitingReason.value + " " else "")
      + (if c.terminatedReason.Some? then c.terminatedReason.value + " " else "")
  }

  /** The counts and texts over the first `n` statuses. */
  function ReadyCount(statuses: seq<ContainerStatus>, n: nat): (count: nat)
    requires n <= |statuses|
    ensures count <= n
  {
    if n == 0 then 0 else ReadyCount(statuses, n - 1) + if statuses[n - 1].ready then 1 else 0
  }

  /** The exact sum of the restart counts, before any wrap-around: it can
      leave the `int32` range once there are two containers or more. */
  function RestartSum(statuses: seq<ContainerStatus>, n: nat): (sum: int)
    requires n <= |statuses|
    ensures -(n as int) * 0x8000_0000 <= sum <= (n as int) * 0x7FFF_FFFF
    ensures (forall i | 0 <= i < n :: statuses[i].restartCount >= 0) ==> sum >= 0
  {
    if n == 0 then 0 else RestartSum(statuses, n - 1) + statuses[n - 1].restartCount
  }

  /** The collected reasons; every reason is followed by a space, so the
      text, when there is any, ends in one. */
  function NotReadyReasons(statuses: seq<ContainerStatus>, n: nat): (text: string)
    requires n <= |statuses|
    ensures text == "" || text[|text| - 1] == ' '
  {
    if n == 0 then "" else NotReadyReasons(statuses, n - 1) + ReasonText(statuses[n - 1])
  }

  /** The status column: the trimmed reasons when any text was collected,
      the phase otherwise. */
  function PodStatus(reasons: string, phase: string): string {
    if |reasons| > 0 then Trim(GoSpace, reasons) else phase
  }

  /** A Go runtime panic: indexing a slice of the given length out of range. */
  datatype Panic = IndexOutOfRange(index: nat, length: nat)

  /** The loop of `GetPods` over one pod's containers. A pod reporting
      fewer statuses than it has containers makes the loop index past the
      statuses, and Go panics there. */
  method SummarizePod(pod: Pod) returns (row: Result<PodRow, Panic>)
    ensures row.Err? <==> pod.containers > |pod.statuses|
    ensures row.Err? ==> row.error == IndexOutOfRange(|pod.statuses|, |pod.statuses|)
    ensures row.Ok? ==>
      && row.value.ready == IntToString(ReadyCount(pod.statuses, pod.containers)) + "/" + IntToString(pod.containers)
      && row.value.restarts == Wrap32(RestartSum(pod.statuses, pod.containers))
      && row.value.status == PodStatus(NotReadyReasons(pod.statuses, pod.containers), pod.phase)
  {
    var containerRestarts: Int32 := 0;
    var containerReady := 0;
    var totalContainers := 0;
    var containerReasonNotReady := "";
    for i := 0 to pod.containers
      invariant i <= |pod.statuses|
      invariant containerRestarts == Wrap32(RestartSum(pod.statuses, i))
      invariant containerReady == ReadyCount(pod.statuses, i)
      invariant totalContainers == i
      invariant containerReasonNotReady == NotReadyReasons(pod.statuses, i)
    {
      if i == |pod.statuses| {
        return Err(IndexOutOfRange(i, |pod.statuses|));
      }
      var status := pod.statuses[i];
      containerReasonNotReady := AppendReasons(containerReasonNotReady, status);
      WrapAdd(RestartSum(pod.statuses, i), status.restartCount);
      assert RestartSum(pod.statuses, i + 1) == RestartSum(pod.statuses, i) + status.restartCount;
      containerRestarts := Wrap32(containerRestarts + status.restartCount);
      if status.ready {
        containerReady := containerReady + 1;
      }
      totalContainers := totalContainers + 1;
    }
    var ready := IntToString(containerReady) + "/" + IntToString(totalContainers);
    var actualStatus;
    if |containerReasonNotReady| > 0 {
      actualStatus := Trim(GoSpace, containerReasonNotReady);
    } else {
      actualStatus := pod.phase;
    }
    row := Ok(PodRow(ready, actualStatus, containerRestarts));
  }

  /** The body of the loop that collects a container's reasons: when it is
      not ready, its waiting reason and then its terminated reason, each
      followed by a space. */
  method AppendReasons(text: string, status: ContainerStatus) returns (text': string)
    ensures text' == text + ReasonText(status)
  {
    text' := text;
    if !status.ready {
      if status.waitingReason.Some? {
        text' := text' + status.waitingReason.value + " ";
      }
      if status.terminatedReason.Some? {
        text' := text' + status.terminatedReason.value + " ";
      }
    }
  }

  // ---------------------------------------------------------------------
  // Properties of the row

  /** Adding in 32 bits step by step is wrapping the exact sum once. */
  lemma WrapAdd(a: int, b: int)
    ensures Wrap32(Wrap32(a) + b) == Wrap32(a + b)
  {
    var m := 0x1_0000_0000;
    var k := (a + 0x8000_0000) / m;
    assert Wrap32(a) + b == a + b - k * m;
    assert (a + b - k * m + 0x8000_0000) % m == (a + b + 0x8000_0000) % m;
  }

  /** No reasons are collected exactly when every container that is not
      ready is in neither the waiting nor the terminated state. */
  lemma {:induction false} NoReasonsIffNoStates(statuses: seq<ContainerStatus>, n: nat)
    requires n <= |statuses|
    ensures NotReadyReasons(statuses, n) == ""
        <==> forall i | 0 <= i < n :: statuses[i].ready
               || (statuses[i].waitingReason.None? && statuses[i].terminatedReason.None?)
  {
    if n > 0 {
      NoReasonsIffNoStates(statuses, n - 1);
      var c := statuses[n - 1];
      var before := NotReadyReasons(statuses, n - 1);
      ReasonTextEmpty(c);
      assert NotReadyReasons(statuses, n) == before + ReasonText(c);
      assert |before + ReasonText(c)| == |before| + |ReasonText(c)|;
    }
  }

  /** A container adds no text exactly when it is ready or in neither state. */
  lemma ReasonTextEmpty(c: ContainerStatus)
    ensures ReasonText(c) == "" <==> c.ready || (c.waitingReason.None? && c.terminatedReason.None?)
  {
    if !c.ready && (c.waitingReason.Some? || c.terminatedReason.Some?) {
      assert |ReasonText(c)| > 0;
    }
  }

  /** So the status falls back to the phase exactly then. */
  lemma PhaseShownIffNoStates(statuses: seq<ContainerStatus>, n: nat, phase: string)
    requires n <= |statuses|
    requires forall i | 0 <= i < n :: statuses[i].ready
               || (statuses[i].waitingReason.None? && statuses[i].terminatedReason.None?)
    ensures PodStatus(NotReadyReasons(statuses, n), phase) == phase
  {
    NoReasonsIffNoStates(statuses, n);
  }

  /** When a reason was collected the status is the reasons text without
      its surrounding white space. */
  lemma ReasonStatusTrimmed(statuses: seq<ContainerStatus>, n: nat, phase: string)
    requires n <= |statuses|
    requires exists i | 0 <= i < n :: !statuses[i].ready
               && (statuses[i].waitingReason.Some? || statuses[i].terminatedReason.Some?)
    ensures var status := PodStatus(NotReadyReasons(statuses, n), phase);
      status == Trim(GoSpace, NotReadyReasons(statuses, n))
      && (status == [] || (!IsSpace(GoSpace, status[0]) && !IsSpace(GoSpace, status[|status| - 1])))
  {
    NoReasonsIffNoStates(statuses, n);
  }

  /** A collected reason that is blank still counts as collected: the
      status is then empty rather than the phase. */
  lemma BlankReasonHidesPhase(c: ContainerStatus, phase: string)
    requires !c.ready && c.waitingReason == Some("") && c.terminatedReason.None?
    ensures PodStatus(NotReadyReasons([c], 1), phase) == ""
  {
    assert NotReadyReasons([c], 1) == " ";
  }

  /** The ready count is the number of ready containers, at most all of them. */
  lemma {:induction false} ReadyCountAll(statuses: seq<ContainerStatus>, n: nat)
    requires n <= |statuses|
    ensures ReadyCount(statuses, n) == n <==> forall i | 0 <= i < n :: statuses[i].ready
  {
    if n > 0 {
      ReadyCountAll(statuses, n - 1);
    }
  }
}
