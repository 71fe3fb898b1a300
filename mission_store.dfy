/**
 * The mission orders and their signatures as an in-memory store, and the
 * handlers that change them: handleApprove, handleReject and handleDelete
 * (src/pages/MissionDetail.tsx), the approval panel that gates the first
 * two, and handleSubmit of the new-mission form (src/pages/NewMission.tsx).
 */
module Missions {
  import opened Types
  import opened SeqUtil
  import opened Workflow
  import opened NewMission

  datatype WorkflowError =
    | MissionNotLoaded     // no mission is loaded for the id
    | NotInWorkflow        // the mission's status has no step in the chain
    | CommentRequired      // a rejection without a reason
    | NotDraft             // deleting a mission that is not a draft
    | NotAuthorized        // the approval panel is not shown to this user
    | ProfileLookupFailed  // the caller's profile could not be read
    | ReferenceFailed      // the reference generator failed
    | InsertFailed         // the store refused the new row
    | DeleteFailed         // the store refused to delete the row

  datatype Outcome = Pass | Fail(error: WorkflowError)

  function SignatureMission(s: MissionSignature): MissionId
  {
    s.missionId
  }

  /** The signatures of one mission, in the order they were recorded (signed_at ascending). */
  function SignaturesOf(log: seq<MissionSignature>, id: MissionId): seq<MissionSignature>
  {
    KeyFilter(log, SignatureMission, id)
  }

  /**
   * A stored mission agrees with its signatures: they form the audit trail
   * its status implies, and it has a rejection reason exactly when it is
   * rejected.
   */
  ghost predicate Consistent(m: MissionOrder, sigs: seq<MissionSignature>)
  {
    TrailMatches(m.status, sigs) && (m.rejectionReason.Some? <==> m.status == Rejected)
  }

  /** The signature handleApprove records: an empty comment is stored as null. */
  function ApprovalComment(comment: string): (c: Option<string>)
    ensures c.None? <==> comment == ""
    ensures c.Some? ==> c.value == comment
  {
    if comment == "" then None else Some(comment)
  }

  class MissionStore {
    /** mission_orders, by id. */
    var missions: map<MissionId, MissionOrder>
    /** mission_signatures, append-only, in the order rows were inserted. */
    var signatures: seq<MissionSignature>
    /** The text of the approval panel's comment box. */
    var comment: string

    ghost predicate Valid()
      reads this
    {
      && (forall id | id in missions :: Consistent(missions[id], SignaturesOf(signatures, id)))
      && (forall i | 0 <= i < |signatures| :: signatures[i].missionId in missions)
    }

    constructor ()
      ensures Valid()
      ensures missions == map[] && signatures == [] && comment == ""
    {
      missions := map[];
      signatures := [];
      comment := "";
    }

    /** Typing in the comment box. */
    method EditComment(text: string)
      modifies this
      ensures comment == text && missions == old(missions) && signatures == old(signatures)
    {
      comment := text;
    }

    /**
     * handleApprove: append one signature stamped with the current step's
     * role and move the mission to the next step, or to `approved` after
     * the last one, then clear the comment box. A mission whose status has
     * no step is refused before anything is written.
     */
    method Approve(id: MissionId, signerId: UserId) returns (outcome: Outcome)
      requires Valid()
      modifies this
      ensures Valid()
      ensures id !in old(missions) ==>
                outcome == Fail(MissionNotLoaded) && missions == old(missions) && signatures == old(signatures)
      ensures id in old(missions) && ApproveStep(old(missions)[id].status).None? ==>
                outcome == Fail(NotInWorkflow) && missions == old(missions) && signatures == old(signatures)
      ensures id in old(missions) && ApproveStep(old(missions)[id].status).Some? ==>
                var t := ApproveStep(old(missions)[id].status).value;
                && outcome == Pass
                && signatures == old(signatures) + [MissionSignature(id, signerId, t.signerRole, ApprovedAction, ApprovalComment(old(comment)))]
                && missions == old(missions)[id := old(missions)[id].(status := t.next)]
      ensures comment == if outcome == Pass then "" else old(comment)
    {
      if id !in missions {
        return Fail(MissionNotLoaded);
      }
      var m := missions[id];
      var t := ApproveStep(m.status);
      if t.None? {
        return Fail(NotInWorkflow);
      }
      var sig := MissionSignature(id, signerId, t.value.signerRole, ApprovedAction, ApprovalComment(comment));
      comment := "";
      ghost var log := signatures;
      signatures := signatures + [sig];
      missions := missions[id := m.(status := t.value.next)];
      forall j | j in missions ensures Consistent(missions[j], SignaturesOf(signatures, j)) {
        KeyFilterAppend(log, sig, SignatureMission, j);
        if j == id {
          ApproveExtendsTrail(m.status, SignaturesOf(log, id), sig);
        }
      }
      outcome := Pass;
    }

    /**
     * handleReject: refused when no mission is loaded or the comment is
     * empty; refused when the status has no step (see the finding in
     * RejectAsWritten); otherwise append one rejection stamped with the
     * current step's role and carrying the comment, mark the mission
     * rejected with the comment as its reason, and clear the comment box.
     */
    method Reject(id: MissionId, signerId: UserId) returns (outcome: Outcome)
      requires Valid()
      modifies this
      ensures Valid()
      ensures id !in old(missions) ==>
                outcome == Fail(MissionNotLoaded) && missions == old(missions) && signatures == old(signatures)
      ensures id in old(missions) && old(comment) == "" ==>
                outcome == Fail(CommentRequired) && missions == old(missions) && signatures == old(signatures)
      ensures id in old(missions) && old(comment) != "" && FindStep(old(missions)[id].status).None? ==>
                outcome == Fail(NotInWorkflow) && missions == old(missions) && signatures == old(signatures)
      ensures id in old(missions) && old(comment) != "" && FindStep(old(missions)[id].status).Some? ==>
                var k := FindStep(old(missions)[id].status).value;
                && outcome == Pass
                && signatures == old(signatures) + [MissionSignature(id, signerId, WorkflowSteps[k].role, RejectedAction, Some(old(comment)))]
                && missions == old(missions)[id := old(missions)[id].(status := Rejected, rejectionReason := Some(old(comment)))]
      ensures comment == if outcome == Pass then "" else old(comment)
    {
      if id !in missions {
        return Fail(MissionNotLoaded);
      }
      if comment == "" {
        return Fail(CommentRequired);
      }
      var m := missions[id];
      var step := FindStep(m.status);
      if step.None? {
        return Fail(NotInWorkflow);
      }
      var sig := MissionSignature(id, signerId, WorkflowSteps[step.value].role, RejectedAction, Some(comment));
      ghost var log := signatures;
      signatures := signatures + [sig];
      missions := missions[id := m.(status := Rejected, rejectionReason := Some(comment))];
      comment := "";
      forall j | j in missions ensures Consistent(missions[j], SignaturesOf(signatures, j)) {
        KeyFilterAppend(log, sig, SignatureMission, j);
        if j == id {
          RejectExtendsTrail(m.status, SignaturesOf(log, id), sig);
        }
      }
      outcome := Pass;
    }

    /**
     * handleDelete: only a draft is offered to the store for deletion
     * (`deleteAccepted` is the store's answer); when the store deletes it
     * its row disappears and nothing else changes, and a refusal changes
     * nothing.
     */
    method Delete(id: MissionId, deleteAccepted: bool) returns (outcome: Outcome)
      requires Valid()
      modifies this
      ensures Valid()
      ensures outcome == Pass <==> id in old(missions) && DeleteAllowed(old(missions)[id].status) && deleteAccepted
      ensures outcome == Pass ==> missions == old(missions) - {id} && signatures == old(signatures)
      ensures !(id in old(missions) && DeleteAllowed(old(missions)[id].status)) ==>
                outcome == Fail(NotDraft) && missions == old(missions) && signatures == old(signatures)
      ensures id in old(missions) && DeleteAllowed(old(missions)[id].status) && !deleteAccepted ==>
                outcome == Fail(DeleteFailed) && missions == old(missions) && signatures == old(signatures)
      ensures comment == old(comment)
    {
      if id !in missions || !DeleteAllowed(missions[id].status) {
        return Fail(NotDraft);
      }
      if !deleteAccepted {
        return Fail(DeleteFailed);
      }
      TrailShape(missions[id].status, SignaturesOf(signatures, id));
      KeyFilterEmpty(signatures, SignatureMission, id);
      missions := missions - {id};
      outcome := Pass;
    }

    /**
     * handleSubmit of the new-mission form: read the caller's profile,
     * obtain a reference, then insert one mission owned by that profile,
     * in `draft` or `pending_service` as the button chosen. A failed
     * lookup, a failed reference or a refused insert (an id already taken,
     * or a row the store rejects, `insertAccepted` being its answer)
     * inserts nothing.
     */
    method SubmitNew(newId: MissionId, profileId: Option<UserId>, reference: Option<string>,
                     form: MissionForm, amount: int, submitType: SubmitType, insertAccepted: bool)
      returns (outcome: Outcome)
      requires Valid()
      modifies this
      ensures Valid()
      ensures signatures == old(signatures) && comment == old(comment)
      ensures profileId.None? ==> outcome == Fail(ProfileLookupFailed) && missions == old(missions)
      ensures profileId.Some? && reference.None? ==> outcome == Fail(ReferenceFailed) && missions == old(missions)
      ensures profileId.Some? && reference.Some? && (newId in old(missions) || !insertAccepted) ==>
                outcome == Fail(InsertFailed) && missions == old(missions)
      ensures outcome == Pass <==> profileId.Some? && reference.Some? && newId !in old(missions) && insertAccepted
      ensures outcome == Pass ==>
                && missions == old(missions)[newId := NewOrder(reference.value, profileId.value, form, amount, submitType)]
                && missions[newId].status == InitialStatus(submitType)
                && missions[newId].agentId == profileId.value
                && missions[newId].reference == reference.value
    {
      if profileId.None? {
        return Fail(ProfileLookupFailed);
      }
      if reference.None? {
        return Fail(ReferenceFailed);
      }
      if newId in missions || !insertAccepted {
        return Fail(InsertFailed);
      }
      KeyFilterEmpty(signatures, SignatureMission, newId);
      missions := missions[newId := NewOrder(reference.value, profileId.value, form, amount, submitType)];
      outcome := Pass;
    }

    /**
     * The approve button of the approval panel: the panel is rendered only
     * when canApprove holds for the loaded mission and the user's roles.
     */
    method ClickApprove(id: MissionId, signerId: UserId, userRoles: seq<Role>) returns (outcome: Outcome)
      requires Valid()
      modifies this
      ensures Valid()
      ensures (id !in old(missions) || !CanApprove(Some(old(missions)[id]), userRoles)) ==>
                outcome == Fail(NotAuthorized) && missions == old(missions) && signatures == old(signatures)
      ensures outcome == Pass ==>
                && id in old(missions) && RequiredRole(old(missions)[id].status).Some?
                && RequiredRole(old(missions)[id].status).value in userRoles
                && ApproveStep(old(missions)[id].status).Some?
                && signatures == old(signatures) + [MissionSignature(id, signerId, RequiredRole(old(missions)[id].status).value,
                                                                     ApprovedAction, ApprovalComment(old(comment)))]
                && missions == old(missions)[id := old(missions)[id].(status := ApproveStep(old(missions)[id].status).value.next)]
      ensures id in old(missions) && CanApprove(Some(old(missions)[id]), userRoles) ==> outcome == Pass
      ensures comment == if outcome == Pass then "" else old(comment)
    {
      if id !in missions || !CanApprove(Some(missions[id]), userRoles) {
        return Fail(NotAuthorized);
      }
      outcome := Approve(id, signerId);
    }

    /**
     * The reject button of the approval panel: shown only when canApprove
     * holds, and disabled while the comment is empty.
     */
    method ClickReject(id: MissionId, signerId: UserId, userRoles: seq<Role>) returns (outcome: Outcome)
      requires Valid()
      modifies this
      ensures Valid()
      ensures (id !in old(missions) || !CanApprove(Some(old(missions)[id]), userRoles)) ==>
                outcome == Fail(NotAuthorized) && missions == old(missions) && signatures == old(signatures)
      ensures old(comment) == "" ==> outcome != Pass && missions == old(missions) && signatures == old(signatures)
      ensures outcome == Pass ==>
                && id in old(missions) && RequiredRole(old(missions)[id].status).Some?
                && RequiredRole(old(missions)[id].status).value in userRoles
                && signatures == old(signatures) + [MissionSignature(id, signerId, RequiredRole(old(missions)[id].status).value,
                                                                     RejectedAction, Some(old(comment)))]
                && missions == old(missions)[id := old(missions)[id].(status := Rejected, rejectionReason := Some(old(comment)))]
      ensures id in old(missions) && CanApprove(Some(old(missions)[id]), userRoles) && old(comment) != "" ==> outcome == Pass
      ensures comment == if outcome == Pass then "" else old(comment)
    {
      if id !in missions || !CanApprove(Some(missions[id]), userRoles) {
        return Fail(NotAuthorized);
      }
      if comment == "" {
        return Fail(CommentRequired);
      }
      StepsMatchRequiredRoles(missions[id].status);
      outcome := Reject(id, signerId);
    }
  }

  /**
   * handleReject as the source writes it, for a loaded mission and a
   * non-empty comment: the mission row it writes and the signature rows
   * the store keeps. When the status has no step, the signature lacks its
   * required signer_role, the store refuses that row, the handler ignores
   * the refusal and still marks the mission rejected.
   */
  function RejectAsWritten(m: MissionOrder, id: MissionId, signerId: UserId, comment: string): (MissionOrder, seq<MissionSignature>)
  {
    var row := m.(status := Rejected, rejectionReason := Some(comment));
    match FindStep(m.status)
    case Some(k) => (row, [MissionSignature(id, signerId, WorkflowSteps[k].role, RejectedAction, Some(comment))])
    case None => (row, [])
  }

  /**
   * The discrepancy: rejecting an approved mission as written turns it
   * into a rejected mission whose signatures contain no rejection, which
   * is no audit trail of a rejected mission.
   */
  lemma RejectAsWrittenLosesAuditTrail()
    ensures
      var sigs := [MissionSignature("m1", "u1", ChefService, ApprovedAction, None),
                   MissionSignature("m1", "u2", Directeur, ApprovedAction, None),
                   MissionSignature("m1", "u3", Finance, ApprovedAction, None)];
      var m := MissionOrder("OM-1", "a1", "t", "d", "x", "2024-01-01", "2024-01-02", 100, Approved, None);
      var (m', added) := RejectAsWritten(m, "m1", "u4", "hors budget");
      && Consistent(m, sigs)
      && m'.status == Rejected
      && added == []
      && !Consistent(m', sigs + added)
  {
    var sigs := [MissionSignature("m1", "u1", ChefService, ApprovedAction, None),
                 MissionSignature("m1", "u2", Directeur, ApprovedAction, None),
                 MissionSignature("m1", "u3", Finance, ApprovedAction, None)];
    var st := Stamps(sigs);
    assert st == Approvals(|WorkflowSteps|);
    assert ApprovedAction[0] != RejectedAction[0];
    assert st[2].action != (Approvals(2) + [Stamp(WorkflowSteps[2].role, RejectedAction)])[2].action;
  }
}
