/** The execution tables as mutable objects, one class per table.

    Lists of children are constant: a service call works on the rows it read under the
    Execution lock, and only approval requests are inserted by the services modelled
    here.  Row() is the value of an object together with everything below it; Repr holds
    the objects that value depends on. */
module ExecutionStore {
  import opened ExecutionRows

  class ToolCall {
    var status: WorkStatus
    var finishedAt: Option<Time>

    constructor (status: WorkStatus)
      ensures Row() == CallRow(status, None)
    {
      this.status, this.finishedAt := status, None;
    }

    ghost function Row(): CallRow
      reads this
    {
      CallRow(status, finishedAt)
    }
  }

  class StepAttempt {
    const calls: seq<ToolCall>
    ghost const Repr: set<object>
    var status: WorkStatus
    var finishedAt: Option<Time>
    var workerId: Option<WorkerId>
    var leaseExpiresAt: Option<Time>
    var errorCode: Option<string>

    constructor (calls: seq<ToolCall>, workerId: WorkerId, leaseExpiresAt: Time)
      requires forall i, j | 0 <= i < j < |calls| :: calls[i] != calls[j]
      ensures Valid() && this.calls == calls && Repr == {this} + (set i | 0 <= i < |calls| :: calls[i])
      ensures status.Started? && finishedAt.None? && errorCode.None?
      ensures this.workerId == Some(workerId) && this.leaseExpiresAt == Some(leaseExpiresAt)
    {
      this.calls, this.status, this.finishedAt := calls, WorkStatus.Started, None;
      this.workerId, this.leaseExpiresAt, this.errorCode := Some(workerId), Some(leaseExpiresAt), None;
      this.Repr := {this} + set i | 0 <= i < |calls| :: calls[i];
    }

    ghost predicate Valid() {
      && this in Repr
      && (forall i :: 0 <= i < |calls| ==> calls[i] in Repr)
      && (forall i, j | 0 <= i < j < |calls| :: calls[i] != calls[j])
    }

    ghost function Row(): (r: AttemptRow)
      requires Valid()
      reads Repr
      ensures |r.calls| == |calls| && forall i :: 0 <= i < |calls| ==> r.calls[i] == calls[i].Row()
    {
      AttemptRow(status, finishedAt, workerId, leaseExpiresAt, errorCode,
                 seq(|calls|, i requires 0 <= i < |calls| reads Repr => calls[i].Row()))
    }
  }

  class ExecutionStep {
    const kind: StepKind
    const attempts: seq<StepAttempt>
    ghost const Repr: set<object>
    var status: StepStatus
    var readyAt: Option<Time>
    var startedAt: Option<Time>
    var finishedAt: Option<Time>
    var errorCode: Option<string>
    var attemptCount: nat
    var lockVersion: nat

    constructor (kind: StepKind, attempts: seq<StepAttempt>, ghost below: set<object>)
      requires AttemptsApart(attempts)
      requires forall i :: 0 <= i < |attempts| ==> attempts[i].Repr <= below
      ensures Valid() && this.attempts == attempts && this.kind == kind && Repr == {this} + below
      ensures status.Pending? && readyAt.None? && startedAt.None? && finishedAt.None? && errorCode.None?
      ensures attemptCount == |attempts| && lockVersion == 1
    {
      this.kind, this.attempts, this.status := kind, attempts, StepStatus.Pending;
      readyAt, startedAt, finishedAt, errorCode := None, None, None, None;
      attemptCount, lockVersion := |attempts|, 1;
      this.Repr := {this} + below;
    }

    ghost predicate Valid() {
      && this in Repr
      && AttemptsApart(attempts)
      && (forall i :: 0 <= i < |attempts| ==> attempts[i].Repr <= Repr && this !in attempts[i].Repr)
    }

    ghost function Row(): (r: StepRow)
      requires Valid()
      reads Repr
      ensures r.status == status
      ensures |r.attempts| == |attempts| && forall i :: 0 <= i < |attempts| ==> r.attempts[i] == attempts[i].Row()
    {
      StepRow(kind, status, readyAt, startedAt, finishedAt, errorCode, attemptCount, lockVersion,
              seq(|attempts|, i requires 0 <= i < |attempts| reads Repr => attempts[i].Row()))
    }
  }

  /** No two attempts share a row. */
  ghost predicate AttemptsApart(attempts: seq<StepAttempt>) {
    && (forall i :: 0 <= i < |attempts| ==> attempts[i].Valid())
    && (forall i, j | 0 <= i < |attempts| && 0 <= j < |attempts| && i != j :: attempts[i].Repr !! attempts[j].Repr)
  }

  /** The Steps of one Execution, all their rows inside repr and none shared. */
  ghost predicate StepsApart(steps: seq<ExecutionStep>, repr: set<object>) {
    && (forall i :: 0 <= i < |steps| ==> steps[i].Valid() && steps[i].Repr <= repr)
    && (forall i, j | 0 <= i < |steps| && 0 <= j < |steps| && i != j :: steps[i].Repr !! steps[j].Repr)
  }

  ghost function StepRows(steps: seq<ExecutionStep>, repr: set<object>): (r: seq<StepRow>)
    requires StepsApart(steps, repr)
    reads repr
    ensures |r| == |steps| && forall i :: 0 <= i < |steps| ==> r[i] == steps[i].Row()
  {
    seq(|steps|, i requires 0 <= i < |steps| reads repr => steps[i].Row())
  }

  class ApprovalRequest {
    const step: nat
    const mode: DecisionMode
    const required: int
    const requestedBy: UserId
    const expiresAt: Time
    const authorable: bool
    var status: ApprovalStatus
    var resolvedAt: Option<Time>
    var lockVersion: nat
    var decisions: seq<Decision>

    constructor (step: nat, mode: DecisionMode, required: int, requestedBy: UserId, expiresAt: Time, authorable: bool)
      ensures Row() == RequestRow(step, ApprovalStatus.Pending, mode, required, requestedBy, expiresAt, None, authorable, 1, [])
    {
      this.step, this.mode, this.required, this.requestedBy := step, mode, required, requestedBy;
      this.expiresAt, this.authorable := expiresAt, authorable;
      status, resolvedAt, lockVersion, decisions := ApprovalStatus.Pending, None, 1, [];
    }

    ghost function Row(): RequestRow
      reads this
    {
      RequestRow(step, status, mode, required, requestedBy, expiresAt, resolvedAt, authorable, lockVersion, decisions)
    }
  }

  ghost function RequestRows(requests: seq<ApprovalRequest>): (r: seq<RequestRow>)
    reads requests
    ensures |r| == |requests| && forall i :: 0 <= i < |requests| ==> r[i] == requests[i].Row()
  {
    seq(|requests|, i requires 0 <= i < |requests| reads requests => requests[i].Row())
  }

  class InputRequest {
    var status: InputStatus
    var answeredAt: Option<Time>
    var answeredBy: Option<UserId>

    constructor ()
      ensures Row() == InputRow(InputStatus.Open, None, None)
    {
      status, answeredAt, answeredBy := InputStatus.Open, None, None;
    }

    ghost function Row(): InputRow
      reads this
    {
      InputRow(status, answeredAt, answeredBy)
    }
  }

  ghost function InputRows(inputs: seq<InputRequest>): (r: seq<InputRow>)
    reads inputs
    ensures |r| == |inputs| && forall i :: 0 <= i < |inputs| ==> r[i] == inputs[i].Row()
  {
    seq(|inputs|, i requires 0 <= i < |inputs| reads inputs => inputs[i].Row())
  }

  class Execution {
    const requester: UserId
    const steps: seq<ExecutionStep>
    const inputs: seq<InputRequest>
    ghost const StepRepr: set<object>
    var requests: seq<ApprovalRequest>
    var status: ExecutionStatus
    var workerId: Option<WorkerId>
    var leaseToken: Option<Token>
    var leaseExpiresAt: Option<Time>
    var heartbeatAt: Option<Time>
    var cancelRequestedAt: Option<Time>
    var cancelRequestedBy: Option<UserId>
    var cancelReason: Option<string>
    var finishedAt: Option<Time>
    var errorCode: Option<string>
    var lockVersion: nat

    constructor (requester: UserId, steps: seq<ExecutionStep>, ghost below: set<object>)
      requires StepsApart(steps, below)
      ensures Valid() && this.steps == steps && inputs == [] && requests == []
      ensures Row() == ExecutionRow(ExecutionStatus.Created, NO_LEASE, CancelMark(None, None, None), None, None, 1,
                                    requester, StepRows(steps, below), [], [])
    {
      this.requester, this.steps, this.inputs, this.requests := requester, steps, [], [];
      this.StepRepr := below;
      status, lockVersion := ExecutionStatus.Created, 1;
      workerId, leaseToken, leaseExpiresAt, heartbeatAt := None, None, None, None;
      cancelRequestedAt, cancelRequestedBy, cancelReason := None, None, None;
      finishedAt, errorCode := None, None;
    }

    /** Every row is one object, of one table. */
    ghost predicate Valid()
      reads this`requests
      ensures Valid() ==> StepsApart(steps, StepRepr) && this !in StepRepr
    {
      && StepsApart(steps, StepRepr)
      && this !in StepRepr
      && (forall i, j | 0 <= i < j < |requests| :: requests[i] != requests[j])
      && (forall i, j | 0 <= i < j < |inputs| :: inputs[i] != inputs[j])
      && (forall i :: 0 <= i < |requests| ==> requests[i] !in StepRepr)
      && (forall i :: 0 <= i < |inputs| ==> inputs[i] !in StepRepr)
    }

    ghost function Row(): (r: ExecutionRow)
      requires Valid()
      reads this, StepRepr, requests, inputs
      ensures r.status == status && r.finishedAt == finishedAt
      ensures r.cancel == CancelMark(cancelRequestedAt, cancelRequestedBy, cancelReason)
      ensures r.steps == StepRows(steps, StepRepr)
    {
      ExecutionRow(status, Lease(workerId, leaseToken, leaseExpiresAt, heartbeatAt),
                   CancelMark(cancelRequestedAt, cancelRequestedBy, cancelReason), finishedAt, errorCode, lockVersion,
                   requester, StepRows(steps, StepRepr), RequestRows(requests), InputRows(inputs))
    }
  }
}
