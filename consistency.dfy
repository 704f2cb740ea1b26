/** How the two halves agree: the Ready text the backend writes for a row
    decides whether the dashboard draws that row as still updating. */
module Consistency {
  import opened Text
  import opened ResourceFilter
  import opened ResourceView
  import opened Workload
  import Pods

  /** A rendered Ready message marks its row as updating exactly when it
      carries a note or its two counts differ. */
  lemma RenderedMessageUpdating(m: ReadyMessage, row: Resource, resourceType: string)
    requires resourceType == "deployment" || resourceType == "statefulset"
    requires row.ready == Render(m)
    ensures IsResourceUpdating(row, resourceType) <==> m.note != Plain || m.shown != m.total
  {
    if m.note == Plain {
      assert row.ready == IntToString(m.shown) + "/" + IntToString(m.total);
      RatioUpdating(row, resourceType, m.shown, m.total);
    } else {
      var note := NoteText(m.note);
      assert note[1] == '(' && note[|note| - 1] == ')' && '/' !in note;
      AnnotatedRatioUpdating(row, resourceType, m.shown, m.total, note, 1);
    }
  }

  /** A deployment row is drawn as steady exactly when its ready count is
      its total and none of the notes applies. */
  lemma DeploymentRowUpdating(d: DeploymentStatus, row: Resource)
    requires row.ready == Render(DeploymentReady(d))
    ensures var total, progressing, failure :=
        DeploymentTotal(d), HasTrueCondition(d.conditions, "Progressing"), HasTrueCondition(d.conditions, "ReplicaFailure");
      IsResourceUpdating(row, "deployment")
      <==> d.readyReplicas != total || failure || d.unavailableReplicas > 0
           || (progressing && (d.updatedReplicas < total || d.availableReplicas < total))
  {
    RenderedMessageUpdating(DeploymentReady(d), row, "deployment");
  }

  /** A stateful-set row is drawn as steady exactly when every replica is
      ready and available, and no failure or lagging rollout is reported. */
  lemma StatefulSetRowUpdating(s: StatefulSetStatus, row: Resource)
    requires row.ready == Render(StatefulSetReady(s))
    ensures var total, progressing, failure :=
        StatefulSetTotal(s), HasTrueCondition(s.conditions, "Progressing"), HasTrueCondition(s.conditions, "ReplicaFailure");
      IsResourceUpdating(row, "statefulset")
      <==> s.readyReplicas != total || failure || s.availableReplicas < total
           || (progressing && s.updatedReplicas < total)
  {
    RenderedMessageUpdating(StatefulSetReady(s), row, "statefulset");
  }

  /** A pod row is drawn as steady exactly when it is Running and every
      container is ready. */
  lemma PodRowUpdating(pod: Pods.Pod, row: Resource)
    requires pod.containers <= |pod.statuses|
    requires row.ready == IntToString(Pods.ReadyCount(pod.statuses, pod.containers)) + "/" + IntToString(pod.containers)
    ensures IsResourceUpdating(row, "pod")
        <==> row.status != "Running" || exists i | 0 <= i < pod.containers :: !pod.statuses[i].ready
  {
    PodRatioUpdating(row, Pods.ReadyCount(pod.statuses, pod.containers), pod.containers);
    Pods.ReadyCountAll(pod.statuses, pod.containers);
  }
}
