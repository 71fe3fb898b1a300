# Mission orders: a Dafny model of the approval workflow and its pages

The application manages mission orders (travel orders). An agent creates an
order. It then passes a fixed chain of three approvers: the head of
department (`chef_service`), the director (`directeur`) and finance
(`finance`). Each approval appends a signature and moves the order one
step on, ending in `approved`. A rejection at any step appends a rejection
signature and ends in `rejected` with the comment as the reason. Around
that workflow sit the dashboard, the analytics page, the administration
page (user roles), the projects page and the status badge.

The model has one module per source file of the core, and a shared module of
sequence operations:

- `Types` (types.dfy): the `app_role` and `mission_status` enumerations, their
  string spellings and the row shapes the pages use.
- `SeqUtil` (seq_util.dfy): `filter`, `reduce` sums, counting, first-appearance
  keys, group-by and `includes`. The sequence operations are defined element by
  element from the end of the sequence, except `Contains`, which searches from
  the front, and `Lower`, a sequence comprehension. The lemmas about them are
  proved by induction.
- `Workflow` (workflow.dfy): the pure decisions of the mission-detail page.
  These are the step chain, `canApprove`, the approve transition, the audit
  trail a mission's signatures form, and how each step is displayed.
- `Missions` (mission_store.dfy): the class `MissionStore`. It holds the
  mission rows, the signature log and the comment box. Its methods are
  `handleApprove`, `handleReject`, `handleDelete`, the new-mission
  `handleSubmit`, and the approval panel's buttons. Every method keeps
  `Valid()`: each mission's signatures are exactly the audit trail its status
  implies.
- `NewMission` (new_mission.dfy): the form, `handleChange` and the initial status.
- `Dashboard` (dashboard.dfy): `filterMissions` as a method of successive
  reassignments, and the counters.
- `Analytics` (analytics.dfy): the totals, the chart data, the expense
  breakdown and `monthlyData`, a method whose loop updates its accumulator
  in place.
- `Admin` (admin.dfy): the class `AdminPage` (role rows, selections, user
  form) and the group-by method.
- `Projects` (projects.dfy): the budget colour under JavaScript division
  semantics, the progress figures and the class `ProjectsPage` (form, dialog).
- `StatusBadge` (status_badge.dfy): the status table and its fallback.

The database is an in-memory store. A fetch is the sequence or map it would
return. The signer's profile id, the generated reference, the new row id,
the parsed amount, the month key and the auth service's answer are
parameters.

What the code checks and computes:

- `estimated_amount` is taken straight from the form (parsed). No code
  computes it from the expense categories.
- The role check lives only in the approval panel (`canApprove` gates its
  rendering). `handleApprove` and `handleReject` check no role themselves,
  so `MissionStore.Approve` and `MissionStore.Reject` do not either.
  `ClickApprove` and `ClickReject` model the gated buttons.
- The owner check on delete and edit exists only as a condition on which
  buttons are shown. `handleDelete` checks only for a draft.
- The status updates are not conditioned on the status the page loaded.

## Model

| member | source | states |
|---|---|---|
| Types.ParseRole | src/integrations/supabase/types.ts:506 | a string reads as a role exactly when it is that role's database spelling |
| Types.ParseStatus | src/integrations/supabase/types.ts:507-514 | a string reads as a status exactly when it is that status's database spelling |
| Types.StatusConstantsMatchEnum | src/integrations/supabase/types.ts:643-651 | the status constant lists all seven statuses once each, in enum order, spelled as the enum spells them |
| Types.RoleConstantsMatchEnum | src/integrations/supabase/types.ts:642 | the role constant lists all five roles once each, spelled as the enum spells them |
| Workflow.FindStepFrom | src/pages/MissionDetail.tsx:202-204 | `findIndex` from a position: the first step waiting in the status, or none when no later step does |
| Workflow.FindStep | src/pages/MissionDetail.tsx:191 | the step found waits in the status; none is found exactly when no step does |
| Workflow.StepsMatchRequiredRoles | src/pages/MissionDetail.tsx:89-93 | the step list agrees with an independent role table: a status has a step iff it is pending, and that step's role is the required role, at the status's chain position |
| Workflow.CanApprove | src/pages/MissionDetail.tsx:188-195 | the panel is open iff a mission is loaded, its status has a step, and the user holds that step's role; never with no roles |
| Workflow.ApproveStep | src/pages/MissionDetail.tsx:202-210 | an approval exists exactly for the pending statuses; it stamps the required role and moves one position along the chain (the last step goes to `approved`) |
| Workflow.ApproveTable | src/pages/MissionDetail.tsx:205-208 | the full transition table: service → director → finance → approved, and no transition elsewhere |
| Workflow.ApproveExtendsTrail | src/pages/MissionDetail.tsx:220-232 | appending the approval stamped as decided turns a status's audit trail into the next status's trail |
| Workflow.RejectExtendsTrail | src/pages/MissionDetail.tsx:252-279 | appending a rejection stamped with the current step's role turns a pending trail into a rejected trail |
| Workflow.TrailShape | src/pages/MissionDetail.tsx:89-93 | on any audit trail, the signatures follow the chain's roles in order, with at most three; all are approvals except possibly a final rejection |
| Workflow.FindSignature | src/pages/MissionDetail.tsx:597-599 | `signatures.find` by role: the first signature with that role, or none when no signature has it |
| Workflow.FindSignatureOnTrail | src/pages/MissionDetail.tsx:597-600 | on an audit trail, step k's signature is the k-th signature, and exists iff k is below the trail's length |
| Workflow.PreviousApprovedOnTrail | src/pages/MissionDetail.tsx:602-608 | on an audit trail, the previous step has an approval iff the trail reaches it and it was not the rejected step |
| Workflow.IsCompleted | src/pages/MissionDetail.tsx:597-600 | `isCompleted`: some signature carries the step's role; characterised by DisplayFollowsTrail |
| Workflow.IsCurrent | src/pages/MissionDetail.tsx:601 | `isCurrent`: the mission's status is the step's status; characterised by DisplayFollowsTrail |
| Workflow.IsPending | src/pages/MissionDetail.tsx:602-609 | `isPending`: not completed, and the first step or the previous step approved; the page computes it but draws nothing from it |
| Workflow.DisplayStep | src/pages/MissionDetail.tsx:611-665 | how a step is drawn, one display per step: by its signature's action when completed, else "En attente de validation" when current, else not reached; this matches the page on an audit trail, where DisplayFollowsTrail shows no step is both completed and current (off a trail the page would also draw the label on a completed current step) |
| Workflow.DisplayFollowsTrail | src/pages/MissionDetail.tsx:596-665 | on an audit trail: a step is completed iff it is signed; it is current, and so drawn as awaiting validation, iff the mission's status is that step's status; the unused `isPending` holds iff the step is the next unsigned one of a mission not rejected; a signed step is drawn rejected iff it is the rejecting one |
| Workflow.DeleteAllowed | src/pages/MissionDetail.tsx:292 | `handleDelete`'s guard: the mission is a draft |
| Workflow.OffersEditDelete | src/pages/MissionDetail.tsx:341 | the edit and delete buttons are shown for a draft to its owner, and a mission whose delete button is shown passes `handleDelete`'s guard |
| Workflow.OffersDocument | src/pages/MissionDetail.tsx:377 | the document button is shown once the mission has left draft and its expenses are loaded, so never for a mission that could be deleted |
| Missions.ApprovalComment | src/pages/MissionDetail.tsx:225 | an empty comment is stored as null, any other one as itself |
| Missions.MissionStore.Approve | src/pages/MissionDetail.tsx:197-242 | refused with no loaded mission or no step, writing nothing; otherwise exactly one approval signature is appended and only this mission's status changes; the audit-trail invariant is kept |
| Missions.MissionStore.Reject | src/pages/MissionDetail.tsx:244-289 | refused with no mission or an empty comment; otherwise one rejection signature with the comment is appended and the mission becomes rejected with the comment as its reason; the invariant is kept |
| Missions.MissionStore.Delete | src/pages/MissionDetail.tsx:291-309 | a mission is deleted iff it is a draft and the store accepts; a non-draft or a refused deletion changes nothing; a draft has no signatures, so the invariant survives the removal |
| Missions.MissionStore.SubmitNew | src/pages/NewMission.tsx:27-73 | a failed profile lookup, a failed reference, a taken id or an insert the store refuses (such as an empty date or amount) leaves the store unchanged; otherwise one mission is added, owned by the caller, in the chosen initial status |
| Missions.MissionStore.EditComment | src/pages/MissionDetail.tsx:678 | typing sets the comment box and changes nothing else |
| Missions.MissionStore.ClickApprove | src/pages/MissionDetail.tsx:670-698 | an approval reaches the store iff the user holds the role the mission's step requires; it appends exactly one approval carrying that role and the comment, and moves only this mission to the next status |
| Missions.MissionStore.ClickReject | src/pages/MissionDetail.tsx:670-698 | a rejection needs both the required role and a non-empty comment; it appends exactly one rejection carrying that role and the comment, and marks only this mission rejected with the comment as reason |
| Missions.RejectAsWritten | src/pages/MissionDetail.tsx:252-279 | `handleReject` as written: the mission row it writes, and the signature row the store keeps (none when the status has no step) |
| Missions.RejectAsWrittenLosesAuditTrail | src/pages/MissionDetail.tsx:252-279 | rejecting, as written, a mission whose status has no step yields a rejected mission with no rejection signature |
| NewMission.HandleChange | src/pages/NewMission.tsx:75-79 | the named field takes the new value and every other field is unchanged; writing a field's current value back leaves the form unchanged |
| NewMission.InitialStatus | src/pages/NewMission.tsx:57 | "save as draft" starts in draft and "submit" in pending_service, and nothing else |
| NewMission.NewOrder | src/pages/NewMission.tsx:47-58 | the inserted row: reference, owner, the form's fields, the parsed amount and the initial status |
| Dashboard.FilterMissions | src/pages/Dashboard.tsx:53-78 | the result keeps exactly the missions passing the status filter and the search, in their original order |
| Dashboard.ComputeStats | src/pages/Dashboard.tsx:93-103 | the counters: total, pending, approved or paid, rejected, and the amount sum; characterised by StatsAgreeWithFilter |
| Dashboard.StatsBounded | src/pages/Dashboard.tsx:93-100 | pending, approved and rejected together never exceed the total |
| Dashboard.StatsAgreeWithFilter | src/pages/Dashboard.tsx:93-100 | each counter equals the number of missions the matching status filter shows; approved covers approved plus paid |
| Dashboard.TotalAmountAppend | src/pages/Dashboard.tsx:101 | the total amount grows by exactly each mission's estimated amount |
| Analytics.AveragePerMission | src/pages/Analytics.tsx:123-124 | 0 with no missions; otherwise the average times the count is the total spent |
| Analytics.ComputeStats | src/pages/Analytics.tsx:119-125 | total spent, total budget, mission count and average; characterised by StatsAddProject and AveragePerMission |
| Analytics.StatsAddProject | src/pages/Analytics.tsx:121-122 | each project adds its spent and total budget to the two totals |
| Analytics.TotalsWithinBudget | src/pages/Analytics.tsx:121-122 | when every project is within budget, the total spent is within the total budget |
| Analytics.ProjectsChartData | src/pages/Analytics.tsx:135-140 | one entry per project, in order, whose budget splits into spent plus remaining |
| Analytics.ChartRemainingTotal | src/pages/Analytics.tsx:135-140 | the chart's remaining amounts add up to total budget minus total spent |
| Analytics.AddMission | src/pages/Analytics.tsx:143-155 | one reduce step: the mission's first expense row, null as 0, added category by category |
| Analytics.ExpensesBreakdown | src/pages/Analytics.tsx:143-155 | the reduce over all missions from zero totals; characterised by BreakdownIsSum |
| Analytics.BreakdownIsSum | src/pages/Analytics.tsx:143-155 | each category total is the sum over missions of the first expense row's value, null as 0, and 0 for a mission without rows |
| Analytics.OnlyFirstRowCounts | src/pages/Analytics.tsx:144-145 | expense rows after a mission's first never change the breakdown |
| Analytics.NoRowsContributeNothing | src/pages/Analytics.tsx:144 | a mission without expense rows leaves the breakdown unchanged |
| Analytics.ExpensesBreakdownData | src/pages/Analytics.tsx:157-163 | exactly the positive categories, in the fixed order Per Diem, Hébergement, Transport, Carburant, Autres |
| Analytics.SliceShownIffPositive | src/pages/Analytics.tsx:157-163 | a category appears in the pie chart iff its total over the missions is positive |
| Analytics.FindMonth | src/pages/Analytics.tsx:168 | `acc.find` by month: the first entry of that month, or none when no entry has it |
| Analytics.MonthlyData | src/pages/Analytics.tsx:166-175 | one entry per distinct month in first-appearance order, each holding its month's total; the entries add up to the grand total |
| Analytics.MonthlyTotalsCover | src/pages/Analytics.tsx:166-175 | every listed month is some mission's month, every mission's month is listed, and no month is listed twice |
| Analytics.MonthlyTotalsSum | src/pages/Analytics.tsx:166-175 | month totals keyed in first-appearance order add up to the sum of all estimated amounts |
| Admin.MaybeSingle | src/pages/Admin.tsx:53-58 | `maybeSingle` over the matching rows: none, the one row, or an error; characterised by MaybeSingleMeaning |
| Admin.MaybeSingleMeaning | src/pages/Admin.tsx:53-58 | the lookup finds nothing iff no row matches, errs iff two rows match, and finds the row iff exactly one does |
| Admin.MaybeSingleOnDistinctRows | src/pages/Admin.tsx:116-122 | without duplicate (user, role) rows, `maybeSingle` never errs and finds a row iff one exists |
| Admin.RemoveByIdKeeps | src/pages/Admin.tsx:147-152 | deleting by id removes one row when the id is present and none otherwise; ids stay distinct, and (user, role) pairs too when they were |
| Admin.GroupByUser | src/pages/Admin.tsx:378-385 | one group per user in first-appearance order; each group holds that user's rows in input order; together they are the input rows, each once |
| Admin.AdminPage.CheckAdminAccess | src/pages/Admin.tsx:44-70 | the page opens when the user has exactly one `admin` row and is never closed again: no row, or two rows (the lookup errs), leave it as it was; without duplicate pairs, it opens iff the user holds an `admin` row; the rendered view follows it: a page starts on the refusal card and shows the content once such a check succeeds |
| Admin.AdminPage.View | src/pages/Admin.tsx:195-211 | the administration content is rendered exactly when `isAdmin` holds, and the "Accès refusé" card otherwise |
| Admin.AdminPage.AddRole | src/pages/Admin.tsx:109-145 | refused with a missing selection or a pair held once; a duplicated pair makes the lookup err, which is ignored; otherwise, when the store accepts, exactly one row is added first with a fresh id and both selections are cleared; a refusal changes nothing; distinct pairs stay distinct |
| Admin.AdminPage.RemoveRole | src/pages/Admin.tsx:147-161 | when the store accepts, exactly the row with that id goes and the others stay in order; a refusal changes nothing |
| Admin.AdminPage.CreateUser | src/pages/Admin.tsx:163-193 | refused while a field is empty; the fields are cleared iff the user is created |
| Projects.BudgetColor | src/pages/Projects.tsx:104-109 | `getBudgetColor`: the text colour by the percentage spent; characterised by BudgetColorThresholds, BudgetColorZeroTotal and BudgetColorMonotone |
| Projects.JsDivide | src/pages/Projects.tsx:105 | the exact ratio for a non-zero total; otherwise +Infinity, -Infinity or NaN by the sign of spent |
| Projects.BudgetColorThresholds | src/pages/Projects.tsx:104-109 | with a positive budget: destructive iff spent ≥ 90% of it, warning iff between 70% and 90%, success iff below 70% |
| Projects.BudgetColorZeroTotal | src/pages/Projects.tsx:104-109 | with a zero budget, any spending is destructive and none is success |
| Projects.BudgetColorMonotone | src/pages/Projects.tsx:104-109 | with a non-negative budget, spending more never gives a less severe colour |
| Projects.ProgressBarClass | src/pages/Projects.tsx:361-365 | the bar's gradient by the percentage spent; for every input it takes the same colour as the spent figure's `getBudgetColor` |
| Projects.ProgressPercent | src/pages/Projects.tsx:352-355 | a whole number at most 100, never +Infinity, NaN only for 0/0, and 100 once the budget is used up |
| Projects.BarWidth | src/pages/Projects.tsx:368-371 | at most 100, never +Infinity, NaN only for 0/0, and 100 once the budget is used up |
| Projects.Remaining | src/pages/Projects.tsx:378-381 | never negative; the budget minus spending when that is not negative, 0 otherwise |
| Projects.RemainingAccountsForBudget | src/pages/Projects.tsx:378-381 | spent plus remaining is the budget unless it is overspent |
| Projects.ProjectsPage.SetOpen | src/pages/Projects.tsx:124 | opening or closing the dialog keeps the form |
| Projects.ProjectsPage.SetForm | src/pages/Projects.tsx:147-240 | an input writes the form and leaves the dialog as it was |
| Projects.ProjectsPage.HandleSubmit | src/pages/Projects.tsx:77-102 | after an accepted insert the dialog closes and the form returns to its initial values with status "active"; a refused one changes nothing |
| StatusBadge.BadgeFor | src/components/StatusBadge.tsx:13-19 | a known status shows its own entry; an unknown string shows the draft entry; whatever the string, the badge shows an entry of the table |
| StatusBadge.LabelsDistinct | src/components/StatusBadge.tsx:3-11 | two statuses share a label only if they are the same status |
| StatusBadge.PendingClassExactly | src/components/StatusBadge.tsx:5-7 | the pending colour belongs exactly to the three pending statuses |

## Left out

- Supabase I/O is modelled as in-memory state. This covers fetches, inserts, updates, deletes, the reference `rpc` and the auth service. Errors it can return are parameters (`profileId`, `reference`, `authAccepted`, `insertAccepted`, `deleteAccepted`), plus the id-collision case of a new mission.
- Missions.MissionStore.Approve: each approval or rejection is one atomic step. The source issues the signature insert and the status update as two separate writes and ignores their errors. The model does not capture partial failure, or races between two approvers acting on the same step.
- Missions.MissionStore.Reject: models the corrected behaviour for a status with no step (see Findings). The source's behaviour on that path is modelled separately as `Missions.RejectAsWritten`.
- `description` is nullable in the database; the model holds it as a plain string and does not model a null description.
- The signer's profile lookup in `handleApprove` and `handleReject` is not modelled; the signer id is a parameter.
- The `processing` and `loading` flags, toasts, navigation, the page reloads after each write, and realtime subscriptions (src/pages/Analytics.tsx:56-85) are left out. They are UI and React state plumbing.
- `parseFloat` of amounts is left out: the parsed amount is an `int` parameter. Amounts are integers throughout, and floating-point rounding is not modelled.
- Dates and formatting are left out. The month key of `monthlyData` is taken as given, and `toLocaleString` and date display are not modelled.
- `toLowerCase` is modelled for ASCII letters only. Unicode case folding is not modelled.
- `statusConfig[status]` on a key inherited from `Object.prototype` (such as `"constructor"`) is not modelled. Every string that is not a status falls back to the draft entry.
- Admin.AdminPage.AddRole: the row's `user_id` is not checked against existing profiles, so a foreign-key refusal is not modelled. Role-row ids are numbers, and the store's next free id stands for the generated uuid.
- Admin.AdminPage.CreateUser: the new user's profile and role rows, created by the auth service, are not modelled.
- Projects.ProjectsPage.HandleSubmit: the reload of the project list is not modelled. Only the form and dialog state are.
- The generated PDF (src/utils/missionPdf.ts) is not part of this model. It is HTML templating and browser printing.
- src/components/Layout.tsx, src/components/MissionFilters.tsx and src/pages/Profile.tsx are not part of this model. They hold navigation, fixed lists and profile editing.
- Mission editing (the `?edit=` route) is not part of this model.
- The expense-category fields of a mission are not required to add up to `estimated_amount`, because no code enforces this.
- No transition to `paid`, or out of `rejected`, is modelled, because no code performs one.

## Findings

| source | as written | input that shows it | evidently intended | confidence | as-written member | corrected member |
|---|---|---|---|---|---|---|
| src/pages/MissionDetail.tsx:252-279 | `handleReject` looks up the current step with `find`. When there is none, it inserts a signature whose `signer_role` is undefined, which the store refuses because the column is required (src/integrations/supabase/types.ts:264). It ignores that refusal and still sets the status to `rejected` with the reason. | an `approved` mission with its three approvals, rejected with comment "hors budget" | refuse the rejection when the status has no step, as `handleApprove` does by throwing, so that every rejected mission carries its rejection signature | low, not executed; the approval panel, the only caller, is shown only for statuses that have a step | Missions.RejectAsWrittenLosesAuditTrail | Missions.MissionStore.Reject |
