/**
 * The projects page (src/pages/Projects.tsx): the budget colour, the
 * progress bar and its figures, and the creation form.
 */
module Projects {

  /**
   * A JavaScript number as the page's divisions produce it: an exact
   * ratio, one of the infinities, or NaN.
   */
  datatype JsNumber = Finite(value: real) | PosInf | NegInf | NaN

  /** spent / total under JavaScript rules: x / 0 is +Infinity, -Infinity or NaN by the sign of x. */
  function JsDivide(a: int, b: int): (r: JsNumber)
    ensures b != 0 ==> r.Finite? && r.value * b as real == a as real
    ensures b == 0 ==> (r == PosInf <==> a > 0) && (r == NegInf <==> a < 0) && (r == NaN <==> a == 0)
  {
    if b != 0 then Finite(a as real / b as real)
    else if a > 0 then PosInf
    else if a < 0 then NegInf
    else NaN
  }

  function Times100(x: JsNumber): JsNumber
  {
    match x
    case Finite(v) => Finite(v * 100.0)
    case _ => x
  }

  /** `x >= t`: true for +Infinity, false for -Infinity and for NaN. */
  predicate AtLeast(x: JsNumber, t: real)
  {
    match x
    case Finite(v) => v >= t
    case PosInf => true
    case NegInf => false
    case NaN => false
  }

  /** (spent / total) * 100. */
  function Percentage(spent: int, total: int): JsNumber
  {
    Times100(JsDivide(spent, total))
  }

  const TextDestructive := "text-destructive"
  const TextWarning := "text-warning"
  const TextSuccess := "text-success"

  /** getBudgetColor: at least 90% is destructive, at least 70% a warning, anything else success. */
  function BudgetColor(spent: int, total: int): string
  {
    var percentage := Percentage(spent, total);
    if AtLeast(percentage, 90.0) then TextDestructive
    else if AtLeast(percentage, 70.0) then TextWarning
    else TextSuccess
  }

  /** How alarming a colour class is. */
  function Severity(color: string): nat
  {
    if color == TextDestructive then 2 else if color == TextWarning then 1 else 0
  }

  lemma PercentageAtLeast(spent: int, total: int, t: real)
    requires total > 0
    ensures AtLeast(Percentage(spent, total), t) <==> 100.0 * spent as real >= t * total as real
  {
    var r := spent as real / total as real;
    assert r * total as real == spent as real;
    assert (r * 100.0) * total as real == 100.0 * spent as real;
    if r * 100.0 >= t {
      assert (r * 100.0) * total as real >= t * total as real;
    } else {
      assert (r * 100.0) * total as real < t * total as real;
    }
  }

  lemma PercentageBounds(spent: int, total: int)
    ensures total > 0 && spent >= total ==> AtLeast(Percentage(spent, total), 100.0)
    ensures total > 0 && spent >= 0 ==> AtLeast(Percentage(spent, total), 0.0)
  {
    if total > 0 {
      PercentageAtLeast(spent, total, 100.0);
      PercentageAtLeast(spent, total, 0.0);
    }
  }

  /**
   * With a positive budget the colour depends only on how spent compares
   * with 90% and 70% of the total, exactly.
   */
  lemma BudgetColorThresholds(spent: int, total: int)
    requires total > 0
    ensures BudgetColor(spent, total) == TextDestructive <==> 10 * spent >= 9 * total
    ensures BudgetColor(spent, total) == TextWarning <==> 10 * spent < 9 * total && 10 * spent >= 7 * total
    ensures BudgetColor(spent, total) == TextSuccess <==> 10 * spent < 7 * total
  {
    PercentageAtLeast(spent, total, 90.0);
    PercentageAtLeast(spent, total, 70.0);
  }

  /**
   * A zero budget follows the JavaScript division: any spending shows as
   * destructive, and no spending (NaN) or a negative one as success.
   */
  lemma BudgetColorZeroTotal(spent: int)
    ensures BudgetColor(spent, 0) == (if spent > 0 then TextDestructive else TextSuccess)
  {
  }

  /** Spending more against the same non-negative budget never gives a less severe colour. */
  lemma BudgetColorMonotone(spent1: int, spent2: int, total: int)
    requires total >= 0 && spent1 <= spent2
    ensures Severity(BudgetColor(spent1, total)) <= Severity(BudgetColor(spent2, total))
  {
    if total > 0 {
      BudgetColorThresholds(spent1, total);
      BudgetColorThresholds(spent2, total);
    }
  }

  const BarDestructive := "bg-gradient-to-r from-destructive to-destructive/80"
  const BarWarning := "bg-gradient-to-r from-warning to-warning/80"
  const BarSuccess := "bg-gradient-to-r from-success to-success/80"

  /** The progress bar's colour class, written out with its own copy of the thresholds. */
  function ProgressBarClass(spent: int, total: int): (r: string)
    ensures r == BarDestructive <==> BudgetColor(spent, total) == TextDestructive
    ensures r == BarWarning <==> BudgetColor(spent, total) == TextWarning
    ensures r == BarSuccess <==> BudgetColor(spent, total) == TextSuccess
  {
    if AtLeast(Times100(JsDivide(spent, total)), 90.0) then BarDestructive
    else if AtLeast(Times100(JsDivide(spent, total)), 70.0) then BarWarning
    else BarSuccess
  }

  /** Math.round: the nearest integer, halves rounded up. */
  function JsRound(x: JsNumber): JsNumber
  {
    match x
    case Finite(v) => Finite(((v + 0.5).Floor) as real)
    case _ => x
  }

  /** Math.min(x, 100): NaN stays NaN, +Infinity becomes 100. */
  function MinHundred(x: JsNumber): JsNumber
  {
    match x
    case Finite(v) => Finite(if v <= 100.0 then v else 100.0)
    case PosInf => Finite(100.0)
    case _ => x
  }

  /** The "Progression" figure: Math.min(Math.round(percentage), 100). */
  function ProgressPercent(spent: int, total: int): (r: JsNumber)
    ensures r != PosInf
    ensures r.Finite? ==> r.value <= 100.0 && r.value == r.value.Floor as real
    ensures r == NaN <==> spent == 0 && total == 0
    ensures total > 0 && spent >= 0 ==> r.Finite? && r.value >= 0.0
    ensures total > 0 && spent >= total ==> r == Finite(100.0)
  {
    PercentageBounds(spent, total);
    MinHundred(JsRound(Percentage(spent, total)))
  }

  /** The bar's width: Math.min(percentage, 100), unrounded. */
  function BarWidth(spent: int, total: int): (r: JsNumber)
    ensures r != PosInf
    ensures r.Finite? ==> r.value <= 100.0
    ensures r == NaN <==> spent == 0 && total == 0
    ensures total > 0 && spent >= 0 ==> r.Finite? && r.value >= 0.0
    ensures total > 0 && spent >= total ==> r == Finite(100.0)
  {
    PercentageBounds(spent, total);
    MinHundred(Percentage(spent, total))
  }

  /** The "Restant" figure: Math.max(total - spent, 0). */
  function Remaining(total: int, spent: int): (r: int)
    ensures r >= 0
    ensures r >= total - spent
    ensures r == 0 || r == total - spent
  {
    if total - spent >= 0 then total - spent else 0
  }

  /** The remaining figure and the spent figure account for the whole budget unless it is overspent. */
  lemma RemainingAccountsForBudget(total: int, spent: int)
    ensures spent <= total ==> spent + Remaining(total, spent) == total
    ensures spent > total ==> Remaining(total, spent) == 0
  {
  }

  /** The creation form's fields, as text. */
  datatype ProjectForm = ProjectForm(
    name: string,
    code: string,
    description: string,
    totalBudget: string,
    startDate: string,
    endDate: string,
    status: string)

  /** The form's initial values: everything empty, status "active". */
  const InitialForm: ProjectForm := ProjectForm("", "", "", "", "", "", "active")

  class ProjectsPage {
    var formData: ProjectForm
    var isOpen: bool

    constructor ()
      ensures formData == InitialForm && !isOpen
    {
      formData := InitialForm;
      isOpen := false;
    }

    /** The dialog's open/close control. */
    method SetOpen(open: bool)
      modifies this
      ensures isOpen == open && formData == old(formData)
    {
      isOpen := open;
    }

    /** One input of the dialog writes its field. */
    method SetForm(form: ProjectForm)
      modifies this
      ensures formData == form && isOpen == old(isOpen)
    {
      formData := form;
    }

    /**
     * handleSubmit: when the store accepts the insert (`insertAccepted`),
     * the dialog closes and the form returns to its initial values; when it
     * refuses, the dialog and the entered values stay as they were.
     */
    method HandleSubmit(insertAccepted: bool) returns (created: bool)
      modifies this
      ensures created == insertAccepted
      ensures created ==> formData == InitialForm && !isOpen && formData.status == "active"
      ensures !created ==> formData == old(formData) && isOpen == old(isOpen)
    {
      if !insertAccepted {
        return false;
      }
      isOpen := false;
      formData := InitialForm;
      created := true;
    }
  }
}
