/**
 * The persistent entities, as plain records. References between them are
 * identifiers: a budget and an expense name their user, an expense its budget.
 * A payment type is immutable here, so an expense holds it by value.
 */
module Entities {
  import opened Wrappers
  import opened Calendar

  /** A user; only the identity and the preferred first day of the financial month matter here. */
  datatype User = User(id: nat, monthStartDay: Option<int>)

  /** The start day in force: the stored one, or 1 when none is stored. */
  function StartDay(u: User): int {
    u.monthStartDay.GetOr(1)
  }

  /** A budget of one category for one (financial) month. */
  datatype Budget = Budget(
    id: nat,
    userId: nat,
    category: string,
    amount: Option<real>,
    month: Option<YearMonth>,
    createdAt: Option<DateTime>)

  /** A user's payment type ("Cash", "Card", ...). */
  datatype PaymentType = PaymentType(id: nat, userId: nat, typeName: string)

  /** A spending recorded against a budget. */
  datatype Expense = Expense(
    id: nat,
    userId: nat,
    budgetId: nat,
    amount: Option<real>,
    description: Option<string>,
    date: Option<Date>,
    payment: Option<PaymentType>,
    subCategoryId: Option<nat>,
    createdAt: Option<DateTime>,
    updatedAt: Option<DateTime>)
}
