/** Execution plans as the static validator sees them: step configs and when clauses are
    already parsed, or known not to parse. */
module PlanModel {
  import opened ExecutionRows

  type Id = string

  datatype Binding =
    | Literal | SecretRef | PlanInput | ExecutionContext | LoopContext
    | StepOutput(source: Id)

  datatype WhenClause = Always | MalformedWhen | When(bindings: seq<Binding>)

  datatype LoopMode = ForEach | While

  datatype LoopConfig = LoopConfig(
    mode: LoopMode,
    maxIterations: int,
    body: seq<Id>,
    collection: Option<Binding>,
    condition: Option<seq<Binding>>)

  /** Malformed: the config does not parse as one of its step type. */
  datatype Config =
    | Malformed(kind: StepKind)
    | ToolConfig(bindings: seq<Binding>)
    | ConditionConfig(bindings: seq<Binding>)
    | JoinConfig
    | ApprovalConfig
    | Looping(loop: LoopConfig)

  datatype PlanStep = PlanStep(id: Id, dependsOn: seq<Id>, when: WhenClause, config: Config)

  datatype Limits = Limits(maxSteps: int, maxDurationSeconds: int, maxParallelism: int, maxLoopIterations: int)

  datatype Plan = Plan(schemaVersion: string, limits: Limits, steps: seq<PlanStep>, responseStepIds: seq<Id>)

  function Kind(c: Config): StepKind {
    match c
    case Malformed(kind) => kind
    case ToolConfig(_) => StepKind.Tool
    case ConditionConfig(_) => StepKind.Condition
    case JoinConfig => StepKind.Join
    case ApprovalConfig => StepKind.Approval
    case Looping(_) => StepKind.Loop
  }

  function Ids(steps: seq<PlanStep>): set<Id> {
    set i | 0 <= i < |steps| :: steps[i].id
  }

  ghost predicate UniqueIds(steps: seq<PlanStep>) {
    forall i, j | 0 <= i < j < |steps| :: steps[i].id != steps[j].id
  }
}
