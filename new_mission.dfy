/**
 * The new-mission form (src/pages/NewMission.tsx): its fields, the
 * change handler, and the status a new mission starts in.
 */
module NewMission {
  import opened Types

  /** The form's fields, all held as the text the inputs produce. */
  datatype MissionForm = MissionForm(
    title: string,
    description: string,
    destination: string,
    startDate: string,
    endDate: string,
    estimatedAmount: string)

  /** The `name` attribute of each input. */
  datatype FormField = Title | Description | Destination | StartDate | EndDate | EstimatedAmount

  function FieldValue(form: MissionForm, field: FormField): string
  {
    match field
    case Title => form.title
    case Description => form.description
    case Destination => form.destination
    case StartDate => form.startDate
    case EndDate => form.endDate
    case EstimatedAmount => form.estimatedAmount
  }

  /** handleChange: `{ ...formData, [name]: value }`. */
  function HandleChange(form: MissionForm, field: FormField, value: string): (r: MissionForm)
    ensures FieldValue(r, field) == value
    ensures forall other :: other != field ==> FieldValue(r, other) == FieldValue(form, other)
    ensures value == FieldValue(form, field) ==> r == form
  {
    match field
    case Title => form.(title := value)
    case Description => form.(description := value)
    case Destination => form.(destination := value)
    case StartDate => form.(startDate := value)
    case EndDate => form.(endDate := value)
    case EstimatedAmount => form.(estimatedAmount := value)
  }

  /** The two buttons of the form: "save as draft" and "submit for approval". */
  datatype SubmitType = SaveDraft | Submit

  /** The status handleSubmit inserts. */
  function InitialStatus(submitType: SubmitType): (s: Status)
    ensures s == Draft <==> submitType == SaveDraft
    ensures s == PendingService <==> submitType == Submit
  {
    match submitType
    case SaveDraft => Draft
    case Submit => PendingService
  }

  /**
   * The mission_orders row handleSubmit inserts: the generated reference,
   * the caller's profile as owner, the form's text fields, the parsed
   * amount and the initial status; rejection_reason is left null.
   */
  function NewOrder(reference: string, agentId: UserId, form: MissionForm, amount: int, submitType: SubmitType): MissionOrder
  {
    MissionOrder(reference, agentId, form.title, form.description, form.destination,
                 form.startDate, form.endDate, amount, InitialStatus(submitType), None)
  }
}
