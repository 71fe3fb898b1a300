/** The status badge (src/components/StatusBadge.tsx): a table from status to label and colour class. */
module StatusBadge {
  import opened Types
  import opened Workflow

  datatype BadgeConfig = BadgeConfig(text: string, className: string)

  const PendingClass := "bg-status-pending text-white"

  /** statusConfig. */
  function StatusConfig(s: Status): BadgeConfig
  {
    match s
    case Draft => BadgeConfig("Brouillon", "bg-status-draft text-foreground")
    case PendingService => BadgeConfig("En attente Chef Service", PendingClass)
    case PendingDirector => BadgeConfig("En attente Directeur", PendingClass)
    case PendingFinance => BadgeConfig("En attente Finance", PendingClass)
    case Approved => BadgeConfig("Approuvé", "bg-status-approved text-white")
    case Rejected => BadgeConfig("Rejeté", "bg-status-rejected text-white")
    case Paid => BadgeConfig("Payé", "bg-status-paid text-white")
  }

  /** The entry the badge shows for a status string: its own entry, or the draft entry for an unknown string. */
  function BadgeFor(status: string): (c: BadgeConfig)
    ensures forall s :: StatusName(s) == status ==> c == StatusConfig(s)
    ensures ParseStatus(status).None? ==> c == StatusConfig(Draft)
    ensures exists s :: c == StatusConfig(s)
  {
    match ParseStatus(status)
    case Some(s) => StatusConfig(s)
    case None => StatusConfig(Draft)
  }

  /** No two statuses share a label, so the badge's text identifies the status. */
  lemma LabelsDistinct(s1: Status, s2: Status)
    ensures StatusConfig(s1).text == StatusConfig(s2).text <==> s1 == s2
  {
  }

  /** The pending colour belongs to exactly the three statuses awaiting a signature. */
  lemma PendingClassExactly(s: Status)
    ensures StatusConfig(s).className == PendingClass <==> IsPendingStatus(s)
  {
    var c := StatusConfig(s).className;
    if !IsPendingStatus(s) {
      assert c[10] != PendingClass[10] || c[11] != PendingClass[11];
    }
  }
}
