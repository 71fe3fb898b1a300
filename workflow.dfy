/**
 * The pure decisions of the mission-order approval workflow
 * (src/pages/MissionDetail.tsx): the fixed chain of three steps, the role
 * gate, the approve transition, the audit trail that a mission's
 * signatures form, and the way each step is displayed.
 */
module Workflow {
  import opened Types

  /** One step of the approval chain: the role that acts on it and the status it waits in. */
  datatype Step = Step(role: Role, caption: string, status: Status)

  /** workflowSteps. */
  const WorkflowSteps: seq<Step> := [
    Step(ChefService, "Chef de Service", PendingService),
    Step(Directeur, "Directeur", PendingDirector),
    Step(Finance, "Finance", PendingFinance)
  ]

  const ApprovedAction: string := "approved"
  const RejectedAction: string := "rejected"

  /**
   * The role each stage requires, stated as a table of its own: the
   * reference against which the step list is checked.
   */
  function RequiredRole(status: Status): Option<Role>
  {
    match status
    case PendingService => Some(ChefService)
    case PendingDirector => Some(Directeur)
    case PendingFinance => Some(Finance)
    case _ => None
  }

  /** The three statuses the pages list as pending. */
  predicate IsPendingStatus(status: Status)
  {
    status == PendingService || status == PendingDirector || status == PendingFinance
  }

  /** Position in the approval chain pending_service, pending_director, pending_finance, approved; -1 for the other statuses. */
  function ChainIndex(status: Status): int
  {
    match status
    case PendingService => 0
    case PendingDirector => 1
    case PendingFinance => 2
    case Approved => 3
    case _ => -1
  }

  /** workflowSteps.findIndex(step => step.status === status) from index `from`; None stands for -1. */
  function FindStepFrom(status: Status, from: nat): (r: Option<nat>)
    requires from <= |WorkflowSteps|
    ensures r.Some? ==> from <= r.value < |WorkflowSteps| && WorkflowSteps[r.value].status == status
    ensures r.Some? ==> forall i :: from <= i < r.value ==> WorkflowSteps[i].status != status
    ensures r.None? ==> forall i :: from <= i < |WorkflowSteps| ==> WorkflowSteps[i].status != status
    decreases |WorkflowSteps| - from
  {
    if from == |WorkflowSteps| then None
    else if WorkflowSteps[from].status == status then Some(from)
    else FindStepFrom(status, from + 1)
  }

  /** The index of the step that waits in `status`, if any. */
  function FindStep(status: Status): (r: Option<nat>)
    ensures r.Some? ==> r.value < |WorkflowSteps| && WorkflowSteps[r.value].status == status
    ensures r.None? <==> forall i :: 0 <= i < |WorkflowSteps| ==> WorkflowSteps[i].status != status
  {
    FindStepFrom(status, 0)
  }

  /**
   * The step list agrees with the reference table: a status has a step
   * exactly when it is one of the three pending statuses, and that step's
   * role is the role the stage requires.
   */
  lemma StepsMatchRequiredRoles(status: Status)
    ensures FindStep(status).Some? <==> IsPendingStatus(status)
    ensures FindStep(status).Some? <==> RequiredRole(status).Some?
    ensures FindStep(status).Some? ==> WorkflowSteps[FindStep(status).value].role == RequiredRole(status).value
    ensures FindStep(status).Some? ==> FindStep(status).value == ChainIndex(status)
  {
    assert WorkflowSteps[0].status == PendingService;
    assert WorkflowSteps[1].status == PendingDirector;
    assert WorkflowSteps[2].status == PendingFinance;
  }

  /**
   * canApprove: the page has a mission, the user has at least one role,
   * the mission's status has a step, and the user holds that step's role.
   */
  function CanApprove(mission: Option<MissionOrder>, userRoles: seq<Role>): (r: bool)
    ensures r <==> mission.Some? && RequiredRole(mission.value.status).Some? &&
                   RequiredRole(mission.value.status).value in userRoles
    ensures userRoles == [] ==> !r
  {
    if mission.None? || |userRoles| == 0 then false
    else
      StepsMatchRequiredRoles(mission.value.status);
      match FindStep(mission.value.status)
      case None => false
      case Some(k) => exists i :: 0 <= i < |userRoles| && userRoles[i] == WorkflowSteps[k].role
  }

  /** The effect an approval decides: the status to move to and the role to stamp on the signature. */
  datatype Transition = Transition(next: Status, signerRole: Role)

  /**
   * handleApprove's decision: the next step's status, or `approved` after
   * the last step, and the current step's role. A status without a step
   * has no transition (the handler throws on workflowSteps[-1].role).
   */
  function ApproveStep(status: Status): (r: Option<Transition>)
    ensures r.None? <==> RequiredRole(status).None?
    ensures r.Some? ==> r.value.signerRole == RequiredRole(status).value
    ensures r.Some? ==> ChainIndex(r.value.next) == ChainIndex(status) + 1
  {
    StepsMatchRequiredRoles(status);
    match FindStep(status)
    case None => None
    case Some(k) =>
      var next := if k < |WorkflowSteps| - 1 then WorkflowSteps[k + 1].status else Approved;
      Some(Transition(next, WorkflowSteps[k].role))
  }

  /** The approve transition table, in full. */
  lemma ApproveTable()
    ensures ApproveStep(PendingService) == Some(Transition(PendingDirector, ChefService))
    ensures ApproveStep(PendingDirector) == Some(Transition(PendingFinance, Directeur))
    ensures ApproveStep(PendingFinance) == Some(Transition(Approved, Finance))
    ensures forall s :: !IsPendingStatus(s) ==> ApproveStep(s).None?
  {
    forall s | !IsPendingStatus(s) ensures ApproveStep(s).None? {
      StepsMatchRequiredRoles(s);
    }
  }

  /** The role and action a signature records, without signer and comment. */
  datatype Stamp = Stamp(role: Role, action: string)

  function Stamps(sigs: seq<MissionSignature>): (r: seq<Stamp>)
    ensures |r| == |sigs|
    ensures forall i :: 0 <= i < |sigs| ==> r[i] == Stamp(sigs[i].signerRole, sigs[i].action)
  {
    seq(|sigs|, i requires 0 <= i < |sigs| => Stamp(sigs[i].signerRole, sigs[i].action))
  }

  /** The approvals of the first `k` steps, in chain order. */
  function Approvals(k: nat): (r: seq<Stamp>)
    requires k <= |WorkflowSteps|
    ensures |r| == k
    ensures forall i :: 0 <= i < k ==> r[i] == Stamp(WorkflowSteps[i].role, ApprovedAction)
  {
    seq(k, i requires 0 <= i < k <= |WorkflowSteps| => Stamp(WorkflowSteps[i].role, ApprovedAction))
  }

  /**
   * The signatures of a mission form the audit trail its status implies:
   * none for a draft, one approval per passed step for a pending or
   * approved mission, and for a rejected mission the approvals of the
   * steps before the rejecting one followed by that step's rejection.
   */
  ghost predicate TrailMatches(status: Status, sigs: seq<MissionSignature>)
  {
    var st := Stamps(sigs);
    match status
    case Draft => st == []
    case Approved => st == Approvals(|WorkflowSteps|)
    case Paid => st == Approvals(|WorkflowSteps|)
    case Rejected =>
      1 <= |st| <= |WorkflowSteps| &&
      st == Approvals(|st| - 1) + [Stamp(WorkflowSteps[|st| - 1].role, RejectedAction)]
    case _ => FindStep(status).Some? && st == Approvals(FindStep(status).value)
  }

  /** An approval stamped as ApproveStep decides extends the audit trail to the trail of the next status. */
  lemma ApproveExtendsTrail(status: Status, sigs: seq<MissionSignature>, sig: MissionSignature)
    requires TrailMatches(status, sigs)
    requires ApproveStep(status).Some?
    requires sig.signerRole == ApproveStep(status).value.signerRole && sig.action == ApprovedAction
    ensures TrailMatches(ApproveStep(status).value.next, sigs + [sig])
  {
    StepsMatchRequiredRoles(status);
    var k := FindStep(status).value;
    var t := ApproveStep(status).value;
    assert Stamps(sigs + [sig]) == Approvals(k + 1);
    if k + 1 < |WorkflowSteps| {
      StepsMatchRequiredRoles(t.next);
    }
  }

  /** A rejection stamped with the current step's role turns the audit trail into a rejected one. */
  lemma RejectExtendsTrail(status: Status, sigs: seq<MissionSignature>, sig: MissionSignature)
    requires TrailMatches(status, sigs)
    requires FindStep(status).Some?
    requires sig.signerRole == WorkflowSteps[FindStep(status).value].role && sig.action == RejectedAction
    ensures TrailMatches(Rejected, sigs + [sig])
  {
    StepsMatchRequiredRoles(status);
    var k := FindStep(status).value;
    var st := Stamps(sigs + [sig]);
    assert |st| == k + 1;
    assert st == Approvals(k) + [Stamp(WorkflowSteps[k].role, RejectedAction)];
  }

  /**
   * Every audit trail signs the steps in chain order, one signature per
   * step, at most three, each an approval except a rejection that ends a
   * rejected mission's trail.
   */
  lemma TrailShape(status: Status, sigs: seq<MissionSignature>)
    requires TrailMatches(status, sigs)
    ensures |sigs| <= |WorkflowSteps|
    ensures forall i :: 0 <= i < |sigs| ==> sigs[i].signerRole == WorkflowSteps[i].role
    ensures forall i :: 0 <= i < |sigs| ==>
              sigs[i].action == (if status == Rejected && i == |sigs| - 1 then RejectedAction else ApprovedAction)
    ensures status == Draft ==> |sigs| == 0
    ensures IsPendingStatus(status) ==> |sigs| == ChainIndex(status)
    ensures status == Approved || status == Paid ==> |sigs| == |WorkflowSteps|
    ensures status == Rejected ==> 1 <= |sigs|
  {
    StepsMatchRequiredRoles(status);
    var st := Stamps(sigs);
    forall i | 0 <= i < |sigs|
      ensures sigs[i].signerRole == WorkflowSteps[i].role
      ensures sigs[i].action == (if status == Rejected && i == |sigs| - 1 then RejectedAction else ApprovedAction)
    {
      assert st[i] == Stamp(sigs[i].signerRole, sigs[i].action);
      if status == Rejected && i < |sigs| - 1 {
        assert st[i] == Approvals(|st| - 1)[i];
      }
    }
  }

  /** signatures.find(sig => sig.signer_role === role). */
  function FindSignature(sigs: seq<MissionSignature>, role: Role): (r: Option<MissionSignature>)
    ensures r.None? <==> forall i :: 0 <= i < |sigs| ==> sigs[i].signerRole != role
    ensures r.Some? ==> exists i :: 0 <= i < |sigs| && sigs[i] == r.value && r.value.signerRole == role &&
                                    forall j :: 0 <= j < i ==> sigs[j].signerRole != role
  {
    if sigs == [] then None
    else if sigs[0].signerRole == role then Some(sigs[0])
    else
      var r := FindSignature(sigs[1..], role);
      if r.Some? then
        var i :| 0 <= i < |sigs[1..]| && sigs[1..][i] == r.value && r.value.signerRole == role &&
                 forall j :: 0 <= j < i ==> sigs[1..][j].signerRole != role;
        assert sigs[i + 1] == r.value;
        r
      else r
  }

  /** isCompleted: some signature carries the step's role. */
  predicate IsCompleted(k: nat, sigs: seq<MissionSignature>)
    requires k < |WorkflowSteps|
  {
    FindSignature(sigs, WorkflowSteps[k].role).Some?
  }

  /** isCurrent: the mission waits in the step's status. */
  predicate IsCurrent(k: nat, status: Status)
    requires k < |WorkflowSteps|
  {
    status == WorkflowSteps[k].status
  }

  /** isPending: not completed, and either the first step or the previous step carries an approval. */
  predicate IsPending(k: nat, sigs: seq<MissionSignature>)
    requires k < |WorkflowSteps|
  {
    !IsCompleted(k, sigs) &&
    (k == 0 ||
     exists i :: 0 <= i < |sigs| && sigs[i].signerRole == WorkflowSteps[k - 1].role && sigs[i].action == ApprovedAction)
  }

  /** How a step of the workflow card is drawn. */
  datatype StepDisplay = SignedApproved | SignedRejected | AwaitingValidation | NotReached

  /** The workflow card's choice for step `k`: its signature's action if completed, else current or not. */
  function DisplayStep(k: nat, status: Status, sigs: seq<MissionSignature>): StepDisplay
    requires k < |WorkflowSteps|
  {
    match FindSignature(sigs, WorkflowSteps[k].role)
    case Some(sig) => if sig.action == ApprovedAction then SignedApproved else SignedRejected
    case None => if IsCurrent(k, status) then AwaitingValidation else NotReached
  }

  /** Each step has its own role. */
  lemma StepRolesDistinct(i: nat, j: nat)
    requires i < |WorkflowSteps| && j < |WorkflowSteps|
    requires WorkflowSteps[i].role == WorkflowSteps[j].role
    ensures i == j
  {
  }

  /** On a consistent audit trail, step `k`'s signature is the `k`-th signature, if there is one. */
  lemma FindSignatureOnTrail(k: nat, status: Status, sigs: seq<MissionSignature>)
    requires k < |WorkflowSteps|
    requires TrailMatches(status, sigs)
    ensures FindSignature(sigs, WorkflowSteps[k].role) == if k < |sigs| then Some(sigs[k]) else None
  {
    TrailShape(status, sigs);
    var role := WorkflowSteps[k].role;
    forall i | 0 <= i < |sigs| && i != k ensures sigs[i].signerRole != role {
      if sigs[i].signerRole == role {
        StepRolesDistinct(i, k);
      }
    }
  }

  /** On a consistent audit trail, the previous step carries an approval exactly when it was signed and not rejected. */
  lemma PreviousApprovedOnTrail(k: nat, status: Status, sigs: seq<MissionSignature>)
    requires 0 < k < |WorkflowSteps|
    requires TrailMatches(status, sigs)
    ensures (exists i :: 0 <= i < |sigs| && sigs[i].signerRole == WorkflowSteps[k - 1].role && sigs[i].action == ApprovedAction)
            <==> k - 1 < |sigs| && !(status == Rejected && k == |sigs|)
  {
    TrailShape(status, sigs);
    if exists i :: 0 <= i < |sigs| && sigs[i].signerRole == WorkflowSteps[k - 1].role && sigs[i].action == ApprovedAction {
      var i :| 0 <= i < |sigs| && sigs[i].signerRole == WorkflowSteps[k - 1].role && sigs[i].action == ApprovedAction;
      StepRolesDistinct(i, k - 1);
    }
    if k - 1 < |sigs| && !(status == Rejected && k == |sigs|) {
      assert sigs[k - 1].signerRole == WorkflowSteps[k - 1].role && sigs[k - 1].action == ApprovedAction;
    }
  }

  /**
   * On a consistent audit trail the workflow card shows exactly the
   * mission's progress: the steps already signed (approved, or the one
   * that rejected), the step the mission waits in, and the steps not
   * reached; a step is completed iff it has been signed, current iff the
   * mission waits in it, and pending iff it is the next one to sign.
   */
  lemma DisplayFollowsTrail(k: nat, status: Status, sigs: seq<MissionSignature>)
    requires k < |WorkflowSteps|
    requires TrailMatches(status, sigs)
    ensures IsCompleted(k, sigs) <==> k < |sigs|
    ensures IsCurrent(k, status) <==> FindStep(status) == Some(k)
    ensures IsPending(k, sigs) <==> k == |sigs| && status != Rejected
    ensures DisplayStep(k, status, sigs) ==
              if k < |sigs| then (if status == Rejected && k == |sigs| - 1 then SignedRejected else SignedApproved)
              else if FindStep(status) == Some(k) then AwaitingValidation
              else NotReached
  {
    TrailShape(status, sigs);
    FindSignatureOnTrail(k, status, sigs);
    if k > 0 {
      PreviousApprovedOnTrail(k, status, sigs);
    } else if status == Rejected {
      assert |sigs| >= 1;
    }
    if IsCurrent(k, status) {
      StepsMatchRequiredRoles(status);
    }
  }

  /** handleDelete's guard: only a draft may be deleted. */
  predicate DeleteAllowed(status: Status)
  {
    status == Draft
  }

  /** The edit and delete buttons are offered to the owner of a draft only. */
  predicate OffersEditDelete(mission: MissionOrder, userId: UserId)
    ensures OffersEditDelete(mission, userId) ==> DeleteAllowed(mission.status)
  {
    mission.status == Draft && mission.agentId == userId
  }

  /** The mission-order document button is offered once the mission has left draft and its expenses are loaded. */
  predicate OffersDocument(mission: MissionOrder, expensesLoaded: bool)
    ensures OffersDocument(mission, expensesLoaded) ==> !DeleteAllowed(mission.status)
  {
    mission.status != Draft && expensesLoaded
  }

}
