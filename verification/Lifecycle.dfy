/** The factory states, the transition table derived from the orchestrator's, and the event record. */
module Lifecycle {

  datatype State =
    | Intake | Triaged | Specified | Planned | ApprovalPending | Approved | Dispatched | Implementing
    | Verifying | Reviewing | RepairNeeded | Repairing | ReReviewing | ReadyForHumanMerge | Merged
    | Deploying | DeploymentVerifying | Live | RollingBack | RolledBack
    | Blocked | Failed | Cancelled | Superseded

  datatype Stage =
    | IntakeStage | SpecificationStage | PlanningStage | DependencyWait | DispatchStage
    | ImplementationStage | VerificationStage | ReviewStage | RepairStage | ReReviewStage | MergeStage
    | DeployStage | DeploymentVerificationStage | LiveStage | RollbackStage
    | BlockedStage | FailedStage | CancelledStage | SupersededStage

  predicate Terminal(s: State)
  {
    s in {Failed, Cancelled, Superseded, RolledBack}
  }

  /** The orchestrator's own table; it owns no state past `Merged`. */
  function OrchestratorTargets(s: State): set<State>
  {
    match s
    case Intake => {Triaged, Cancelled, Superseded}
    case Triaged => {Specified, Blocked, Cancelled, Superseded}
    case Specified => {Planned, Blocked, Cancelled, Superseded}
    case Planned => {ApprovalPending, Approved, Blocked, Cancelled, Superseded}
    case ApprovalPending => {Approved, Blocked, Cancelled, Superseded}
    case Approved => {Dispatched, Blocked, Cancelled, Superseded}
    case Dispatched => {Implementing, Blocked, Cancelled, Superseded}
    case Implementing => {Verifying, Failed, Cancelled, Superseded}
    case Verifying => {Reviewing, RepairNeeded, Blocked, Failed, Cancelled, Superseded}
    case Reviewing => {ReadyForHumanMerge, RepairNeeded, Blocked, Failed, Cancelled, Superseded}
    case RepairNeeded => {Repairing, Blocked, Cancelled, Superseded}
    case Repairing => {ReReviewing, Failed, Blocked, Cancelled, Superseded}
    case ReReviewing => {ReadyForHumanMerge, RepairNeeded, Blocked, Failed, Cancelled, Superseded}
    case ReadyForHumanMerge => {Merged, Blocked, Cancelled, Superseded}
    case Blocked => {Triaged, Dispatched, Cancelled, Superseded}
    case _ => {}
  }

  function ReleaseTargets(s: State): set<State>
  {
    match s
    case Merged => {Deploying, Live, Blocked}
    case Deploying => {DeploymentVerifying, Live, RollingBack, Blocked, Failed}
    case DeploymentVerifying => {Live, RollingBack, Blocked, Failed}
    case Live => {Deploying, RollingBack, Blocked}
    case RollingBack => {RolledBack, Blocked, Failed}
    case _ => {}
  }

  /** `_factory_transitions`: the orchestrator's table, the release table, and where blocked release
      work resumes. */
  function Targets(s: State): set<State>
  {
    OrchestratorTargets(s) + ReleaseTargets(s) + if s == Blocked then {Deploying, Live, RollingBack} else {}
  }

  predicate OrchestratorEdge(from: State, to: State)
  {
    to in OrchestratorTargets(from)
  }

  /** The factory table extends the orchestrator's pointwise, and the orchestrator never loops in place. */
  lemma OrchestratorEdgesKept(a: State, b: State)
    requires OrchestratorEdge(a, b)
    ensures a != b && FactoryEdge(a, b)
  {
  }

  /** The two checks the fold makes before a move. */
  predicate FactoryEdge(from: State, to: State)
  {
    !Terminal(from) && to in Targets(from)
  }

  /** `STAGE_FOR_STATE`. */
  function StageFor(s: State): Stage
  {
    match s
    case Intake => IntakeStage
    case Triaged => IntakeStage
    case Specified => SpecificationStage
    case Planned => PlanningStage
    case ApprovalPending => PlanningStage
    case Approved => PlanningStage
    case Dispatched => DispatchStage
    case Implementing => ImplementationStage
    case Verifying => VerificationStage
    case Reviewing => ReviewStage
    case RepairNeeded => RepairStage
    case Repairing => RepairStage
    case ReReviewing => ReReviewStage
    case ReadyForHumanMerge => MergeStage
    case Merged => MergeStage
    case Deploying => DeployStage
    case DeploymentVerifying => DeploymentVerificationStage
    case Live => LiveStage
    case RollingBack => RollbackStage
    case RolledBack => RollbackStage
    case Blocked => BlockedStage
    case Failed => FailedStage
    case Cancelled => CancelledStage
    case Superseded => SupersededStage
  }

  predicate Release(s: State)
  {
    s in {Deploying, DeploymentVerifying, Live, RollingBack, RolledBack}
  }

  datatype WorkUnitRef = WorkUnitRef(project: string, unit: string, repository: string, issue: string,
                                     change: string, workflow: string, run: string, supersededBy: string)

  datatype Actor = Actor(name: string, kind: string, agentId: string, model: string, modelAlias: string, worker: string)

  /** One lifecycle event. `rest` stands for the fields that only take part in payload equality:
      provenance, provider, recordedAt, environment, parentEventId, schemaVersion. */
  datatype Event = Event(id: string, key: string, ref: WorkUnitRef, stage: Stage, state: State, at: string,
                         actor: Actor, activity: string, reason: string, dependsOn: seq<string>, rest: string)
  {
    function Scope(): (string, string) { (ref.project, ref.unit) }
  }

  /** The terminal states are those no move leaves. */
  lemma TerminalExactly(s: State)
    ensures Terminal(s) <==> forall t :: !FactoryEdge(s, t)
  {
    var exit := match s
      case Intake => Triaged case Triaged => Specified case Specified => Planned case Planned => Approved
      case ApprovalPending => Approved case Approved => Dispatched case Dispatched => Implementing
      case Implementing => Verifying case Verifying => Reviewing case Reviewing => ReadyForHumanMerge
      case RepairNeeded => Repairing case Repairing => ReReviewing case ReReviewing => ReadyForHumanMerge
      case ReadyForHumanMerge => Merged case Merged => Live case Deploying => Live case DeploymentVerifying => Live
      case Live => Deploying case RollingBack => RolledBack case Blocked => Triaged
      case _ => Intake;
    assert !Terminal(s) ==> FactoryEdge(s, exit);
  }
}
