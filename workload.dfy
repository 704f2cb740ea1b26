/** The Ready column of deployments and stateful sets (`GetDeployments` and
    `GetStatefulSets` in handlers/handlers.go). The message starts as
    "ready/total" and later checks overwrite it: a rollout in progress, then
    missing replicas, then a replica failure and, for deployments, too few
    ready replicas. */
module Workload {
  import opened Wrappers
  import opened Text

  /** One entry of `Status.Conditions`: its type and its status. */
  datatype Condition = Condition(conditionType: string, status: string)

  /** The deployment fields the message is made from. */
  datatype DeploymentStatus = DeploymentStatus(
    specReplicas: Option<int>,
    replicas: int,
    readyReplicas: int,
    availableReplicas: int,
    updatedReplicas: int,
    unavailableReplicas: int,
    conditions: seq<Condition>)

  /** The stateful-set fields the message is made from. */
  datatype StatefulSetStatus = StatefulSetStatus(
    specReplicas: Option<int>,
    readyReplicas: int,
    updatedReplicas: int,
    availableReplicas: int,
    conditions: seq<Condition>)

  /** The note after the counts. */
  datatype Note = Plain | Updating | Unavailable | Failed | NotReady

  /** A Ready message: the count shown, the total, and the note. */
  datatype ReadyMessage = ReadyMessage(shown: int, total: int, note: Note)

  function NoteText(note: Note): string {
    match note
    case Plain => ""
    case Updating => " (Updating...)"
    case Unavailable => " (Unavailable...)"
    case Failed => " (Failed)"
    case NotReady => " (Not Ready)"
  }

  /** The `fmt.Sprintf("%d/%d...", shown, total)` text. */
  function Render(m: ReadyMessage): string {
    IntToString(m.shown) + "/" + IntToString(m.total) + NoteText(m.note)
  }

  predicate IsTrue(c: Condition, conditionType: string) {
    c.conditionType == conditionType && c.status == "True"
  }

  /** Some condition of the type has status "True". */
  predicate HasTrueCondition(conditions: seq<Condition>, conditionType: string) {
    exists i | 0 <= i < |conditions| :: IsTrue(conditions[i], conditionType)
  }

  // ---------------------------------------------------------------------
  // Deployments

  /** `spec.replicas` when set, the observed replica count otherwise. */
  function DeploymentTotal(d: DeploymentStatus): int {
    if d.specReplicas.Some? then d.specReplicas.value else d.replicas
  }

  /** The deployment message, one overwrite after another. Its contract
      gives each note's condition outright: too few ready replicas wins,
      then a replica failure, then a rollout in progress with replicas still
      lagging, then replicas missing without a rollout. */
  function DeploymentReady(d: DeploymentStatus): (m: ReadyMessage)
    ensures m.total == DeploymentTotal(d)
    ensures var total, progressing, failure :=
        DeploymentTotal(d), HasTrueCondition(d.conditions, "Progressing"), HasTrueCondition(d.conditions, "ReplicaFailure");
      && (m.note == NotReady <==> d.readyReplicas < total)
      && (m.note == Failed <==> d.readyReplicas >= total && failure)
      && (m.note == Updating <==>
            (d.readyReplicas >= total && !failure && progressing
             && (d.updatedReplicas < total || d.availableReplicas < total || d.unavailableReplicas > 0)))
      && (m.note == Unavailable <==> d.readyReplicas >= total && !failure && !progressing && d.unavailableReplicas > 0)
    ensures m.shown == if m.note == Plain || m.note == NotReady then d.readyReplicas else d.availableReplicas
  {
    var total := DeploymentTotal(d);
    var isUpdating := HasTrueCondition(d.conditions, "Progressing");
    var initial := ReadyMessage(d.readyReplicas, total, Plain);
    var rolling :=
      if isUpdating && (d.updatedReplicas < total || d.availableReplicas < total || d.unavailableReplicas > 0)
      then ReadyMessage(d.availableReplicas, total, Updating) else initial;
    var missing :=
      if !isUpdating && d.unavailableReplicas > 0 then ReadyMessage(d.availableReplicas, total, Unavailable) else rolling;
    var failed :=
      if HasTrueCondition(d.conditions, "ReplicaFailure") then ReadyMessage(d.availableReplicas, total, Failed) else missing;
    if d.readyReplicas < total then ReadyMessage(d.readyReplicas, total, NotReady) else failed
  }

  /** The loop body of `GetDeployments` that builds the Ready text. The
      message is kept as its parts while the checks overwrite it, and
      formatted at the end. */
  method DeploymentReadyMessage(d: DeploymentStatus) returns (statusMessage: string)
    ensures statusMessage == Render(DeploymentReady(d))
  {
    var totalReplicas := d.replicas;
    if d.specReplicas.Some? {
      totalReplicas := d.specReplicas.value;
    }
    var message := ReadyMessage(d.readyReplicas, totalReplicas, Plain);

    var isUpdating := false;
    for i := 0 to |d.conditions|
      invariant isUpdating <==> exists j | 0 <= j < i :: IsTrue(d.conditions[j], "Progressing")
    {
      if d.conditions[i].conditionType == "Progressing" && d.conditions[i].status == "True" {
        isUpdating := true;
      }
    }

    if isUpdating && (d.updatedReplicas < totalReplicas || d.availableReplicas < totalReplicas || d.unavailableReplicas > 0) {
      message := ReadyMessage(d.availableReplicas, totalReplicas, Updating);
    }
    if !isUpdating && d.unavailableReplicas > 0 {
      message := ReadyMessage(d.availableReplicas, totalReplicas, Unavailable);
    }

    ghost var beforeFailure := message;
    for i := 0 to |d.conditions|
      invariant message == if exists j | 0 <= j < i :: IsTrue(d.conditions[j], "ReplicaFailure")
        then ReadyMessage(d.availableReplicas, totalReplicas, Failed) else beforeFailure
    {
      if d.conditions[i].conditionType == "ReplicaFailure" && d.conditions[i].status == "True" {
        message := ReadyMessage(d.availableReplicas, totalReplicas, Failed);
      }
    }

    if d.readyReplicas < totalReplicas {
      message := ReadyMessage(d.readyReplicas, totalReplicas, NotReady);
    }
    assert message == DeploymentReady(d);
    statusMessage := Render(message);
  }

  // ---------------------------------------------------------------------
  // Stateful sets

  /** `spec.replicas` when set, 0 otherwise. */
  function StatefulSetTotal(s: StatefulSetStatus): int {
    if s.specReplicas.Some? then s.specReplicas.value else 0
  }

  /** The stateful-set message. Missing replicas (total minus available)
      override a rollout in progress, and a replica failure overrides both;
      so "Updating" is left only when every replica is available but some
      are not updated. There is no not-ready note. */
  function StatefulSetReady(s: StatefulSetStatus): (m: ReadyMessage)
    ensures m.total == StatefulSetTotal(s)
    ensures var total, progressing, failure :=
        StatefulSetTotal(s), HasTrueCondition(s.conditions, "Progressing"), HasTrueCondition(s.conditions, "ReplicaFailure");
      && m.note != NotReady
      && (m.note == Failed <==> failure)
      && (m.note == Unavailable <==> !failure && s.availableReplicas < total)
      && (m.note == Updating <==> !failure && s.availableReplicas >= total && progressing && s.updatedReplicas < total)
    ensures m.shown == if m.note == Plain then s.readyReplicas else s.availableReplicas
  {
    var total := StatefulSetTotal(s);
    var isUpdating := HasTrueCondition(s.conditions, "Progressing");
    var initial := ReadyMessage(s.readyReplicas, total, Plain);
    var rolling :=
      if isUpdating && (s.updatedReplicas < total || s.availableReplicas < total)
      then ReadyMessage(s.availableReplicas, total, Updating) else initial;
    var unavailableReplicas := total - s.availableReplicas;
    var missing :=
      if unavailableReplicas > 0 then ReadyMessage(s.availableReplicas, total, Unavailable) else rolling;
    if HasTrueCondition(s.conditions, "ReplicaFailure") then ReadyMessage(s.availableReplicas, total, Failed) else missing
  }

  /** The loop body of `GetStatefulSets` that builds the Ready text, kept as
      its parts and formatted at the end. */
  method StatefulSetReadyMessage(s: StatefulSetStatus) returns (statusMessage: string)
    ensures statusMessage == Render(StatefulSetReady(s))
  {
    var totalReplicas := 0;
    if s.specReplicas.Some? {
      totalReplicas := s.specReplicas.value;
    }
    var message := ReadyMessage(s.readyReplicas, totalReplicas, Plain);

    var isUpdating := false;
    for i := 0 to |s.conditions|
      invariant isUpdating <==> exists j | 0 <= j < i :: IsTrue(s.conditions[j], "Progressing")
    {
      if s.conditions[i].conditionType == "Progressing" && s.conditions[i].status == "True" {
        isUpdating := true;
      }
    }

    if isUpdating && (s.updatedReplicas < totalReplicas || s.availableReplicas < totalReplicas) {
      message := ReadyMessage(s.availableReplicas, totalReplicas, Updating);
    }
    var unavailableReplicas := totalReplicas - s.availableReplicas;
    if unavailableReplicas > 0 {
      message := ReadyMessage(s.availableReplicas, totalReplicas, Unavailable);
    }

    ghost var beforeFailure := message;
    for i := 0 to |s.conditions|
      invariant message == if exists j | 0 <= j < i :: IsTrue(s.conditions[j], "ReplicaFailure")
        then ReadyMessage(s.availableReplicas, totalReplicas, Failed) else beforeFailure
    {
      if s.conditions[i].conditionType == "ReplicaFailure" && s.conditions[i].status == "True" {
        message := ReadyMessage(s.availableReplicas, totalReplicas, Failed);
      }
    }
    assert message == StatefulSetReady(s);
    statusMessage := Render(message);
  }
}
