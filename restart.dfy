/** The rollout restart of a deployment or stateful set (`RolloutRestart`
    and `RolloutRestartStatefulSet` in handlers/handlers.go): the pod
    template gets the annotation `kubectl.kubernetes.io/restartedAt` set to
    the current time, which makes the controller roll its pods. A missing
    annotation map is created first; no other annotation is touched. */
module Restart {
  import opened Wrappers

  const RestartedAtKey: string := "kubectl.kubernetes.io/restartedAt"

  /** The template's annotations after the restart mark, from a map that may
      be absent (Go's nil map). */
  function Restarted(annotations: Option<map<string, string>>, now: string): (r: map<string, string>)
    ensures RestartedAtKey in r && r[RestartedAtKey] == now
    ensures forall k | k != RestartedAtKey :: (k in r <==> annotations.Some? && k in annotations.value)
    ensures forall k | k != RestartedAtKey && k in r :: r[k] == annotations.value[k]
  {
    annotations.GetOr(map[])[RestartedAtKey := now]
  }

  /** Marking again only moves the timestamp. */
  lemma RestartedTwice(annotations: Option<map<string, string>>, first: string, second: string)
    ensures Restarted(Some(Restarted(annotations, first)), second) == Restarted(annotations, second)
  {
  }

  /** The pod template of the object being restarted. */
  class PodTemplate {
    var annotations: Option<map<string, string>>

    constructor (annotations: Option<map<string, string>>)
      ensures this.annotations == annotations
    {
      this.annotations := annotations;
    }

    /** Sets the restart annotation to `now` (the text of `metav1.Now()`). */
    method MarkRestarted(now: string)
      modifies this
      ensures annotations == Some(Restarted(old(annotations), now))
    {
      if annotations.None? {
        annotations := Some(map[]);
      }
      annotations := Some(annotations.value[RestartedAtKey := now]);
    }
  }
}
