/**
 * The rows of the two tables the application creates (finance_manager.py
 * `create_tables`), with the column limits that MySQL enforces on insert.
 */
module Records {
  import opened Results
  import opened Calendar

  /** The `type` column: the application only ever writes "income" or "expense". */
  datatype Kind = Income | Expense

  function KindName(k: Kind): string {
    match k
    case Income => "income"
    case Expense => "expense"
  }

  /** How the store reads a `type` value back. */
  function KindNamed(s: string): (r: Option<Kind>)
    ensures r.Some? ==> KindName(r.value) == s
  {
    if s == "income" then Some(Income)
    else if s == "expense" then Some(Expense)
    else None
  }

  /** A row of `transactions`; `cents` is the DECIMAL(10,2) amount times 100. */
  datatype Transaction = Transaction(
    id: int,
    kind: Kind,
    category: string,
    cents: int,
    description: string,
    date: CalendarDate)

  /** A row of `categories` (its surrogate id is never read). */
  datatype Category = Category(name: string, kind: Kind)

  /** VARCHAR(50) of `category` and of `name`. */
  const NameWidth: nat := 50
  /** VARCHAR(255) of `description`. */
  const DescriptionWidth: nat := 255
  /** The largest DECIMAL(10,2) value, 99999999.99, in cents. */
  const MaxCents: int := 9_999_999_999

  lemma KindNameRoundTrip(k: Kind)
    ensures KindNamed(KindName(k)) == Some(k)
  {
  }
}
