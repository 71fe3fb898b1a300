/**
 * The database enumerations and the row shapes of the tables the workflow
 * reads and writes (src/integrations/supabase/types.ts).
 */
module Types {

  datatype Option<T> = None | Some(value: T)

  type MissionId = string
  type UserId = string

  /** Enums.app_role: the five roles a user may hold (a user may hold several). */
  datatype Role = Agent | ChefService | Directeur | Finance | Admin

  /** Enums.mission_status: the seven states of a mission order. */
  datatype Status = Draft | PendingService | PendingDirector | PendingFinance | Approved | Rejected | Paid

  /** Constants.public.Enums.app_role, in declaration order. */
  const AllRoles: seq<Role> := [Agent, ChefService, Directeur, Finance, Admin]

  /** Constants.public.Enums.mission_status, in declaration order. */
  const AllStatuses: seq<Status> :=
    [Draft, PendingService, PendingDirector, PendingFinance, Approved, Rejected, Paid]

  /** The string spelling of each value of Constants.public.Enums.mission_status. */
  const StatusNames: seq<string> :=
    ["draft", "pending_service", "pending_director", "pending_finance", "approved", "rejected", "paid"]

  /** The string spelling of each value of Constants.public.Enums.app_role. */
  const RoleNames: seq<string> := ["agent", "chef_service", "directeur", "finance", "admin"]

  function RoleName(r: Role): string
  {
    match r
    case Agent => "agent"
    case ChefService => "chef_service"
    case Directeur => "directeur"
    case Finance => "finance"
    case Admin => "admin"
  }

  function StatusName(s: Status): string
  {
    match s
    case Draft => "draft"
    case PendingService => "pending_service"
    case PendingDirector => "pending_director"
    case PendingFinance => "pending_finance"
    case Approved => "approved"
    case Rejected => "rejected"
    case Paid => "paid"
  }

  /** Reads a role from its database spelling; any other string is not a role. */
  function ParseRole(name: string): (r: Option<Role>)
    ensures forall x :: RoleName(x) == name <==> r == Some(x)
  {
    if name == "agent" then Some(Agent)
    else if name == "chef_service" then Some(ChefService)
    else if name == "directeur" then Some(Directeur)
    else if name == "finance" then Some(Finance)
    else if name == "admin" then Some(Admin)
    else None
  }

  /** Reads a status from its database spelling; any other string is not a status. */
  function ParseStatus(name: string): (r: Option<Status>)
    ensures forall x :: StatusName(x) == name <==> r == Some(x)
  {
    if name == "draft" then Some(Draft)
    else if name == "pending_service" then Some(PendingService)
    else if name == "pending_director" then Some(PendingDirector)
    else if name == "pending_finance" then Some(PendingFinance)
    else if name == "approved" then Some(Approved)
    else if name == "rejected" then Some(Rejected)
    else if name == "paid" then Some(Paid)
    else None
  }

  /** The status constant lists every status exactly once, spelled as the enum spells it. */
  lemma StatusConstantsMatchEnum()
    ensures |AllStatuses| == 7 && |StatusNames| == 7
    ensures forall s :: s in AllStatuses
    ensures forall i, j :: 0 <= i < j < |AllStatuses| ==> AllStatuses[i] != AllStatuses[j]
    ensures forall i :: 0 <= i < |AllStatuses| ==> StatusNames[i] == StatusName(AllStatuses[i])
  {
    forall s ensures s in AllStatuses {
      match s
      case Draft => assert AllStatuses[0] == s;
      case PendingService => assert AllStatuses[1] == s;
      case PendingDirector => assert AllStatuses[2] == s;
      case PendingFinance => assert AllStatuses[3] == s;
      case Approved => assert AllStatuses[4] == s;
      case Rejected => assert AllStatuses[5] == s;
      case Paid => assert AllStatuses[6] == s;
    }
  }

  /** The role constant lists every role exactly once, spelled as the enum spells it. */
  lemma RoleConstantsMatchEnum()
    ensures |AllRoles| == 5 && |RoleNames| == 5
    ensures forall r :: r in AllRoles
    ensures forall i, j :: 0 <= i < j < |AllRoles| ==> AllRoles[i] != AllRoles[j]
    ensures forall i :: 0 <= i < |AllRoles| ==> RoleNames[i] == RoleName(AllRoles[i])
  {
    forall r ensures r in AllRoles {
      match r
      case Agent => assert AllRoles[0] == r;
      case ChefService => assert AllRoles[1] == r;
      case Directeur => assert AllRoles[2] == r;
      case Finance => assert AllRoles[3] == r;
      case Admin => assert AllRoles[4] == r;
    }
  }

  /**
   * A row of mission_orders. rejection_reason is nullable; actual_amount,
   * project_id and the payment columns are not part of this model.
   */
  datatype MissionOrder = MissionOrder(
    reference: string,
    agentId: UserId,
    title: string,
    description: string,
    destination: string,
    startDate: string,
    endDate: string,
    estimatedAmount: int,
    status: Status,
    rejectionReason: Option<string>)

  /**
   * A row of mission_signatures: the signer's role is an app_role, the action
   * is free text and the comment is nullable. signed_at is assigned by the
   * store; here the position in the signature log stands for it.
   */
  datatype MissionSignature = MissionSignature(
    missionId: MissionId,
    signerId: UserId,
    signerRole: Role,
    action: string,
    comment: Option<string>)

  /** The category totals of a mission_expenses row; every one is nullable. */
  datatype ExpenseTotals = ExpenseTotals(
    perDiemTotal: Option<int>,
    accommodationTotal: Option<int>,
    transportTotal: Option<int>,
    fuelTotal: Option<int>,
    otherExpenses: Option<int>)

  /** A row of projects, reduced to the columns the pages compute with. */
  datatype Project = Project(code: string, name: string, totalBudget: int, spentBudget: int)

  /** A row of user_roles; the store's generated id is a number here. */
  datatype UserRoleRow = UserRoleRow(id: nat, userId: UserId, role: Role)

  /** The `value || 0` default the pages apply to a nullable number. */
  function OrZero(x: Option<int>): int
  {
    match x
    case Some(v) => v
    case None => 0
  }
}
