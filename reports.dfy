/**
 * The reports (finance_manager.py `generate_report`,
 * `generate_summary_report`, `generate_category_report`): the SQL they
 * build and the SUM / GROUP BY results that SQL stands for, over the rows
 * of the `transactions` table.
 */
module Reports {
  import opened Results
  import opened Calendar
  import opened Text
  import opened Sorting
  import opened Records
  import opened TransactionQuery

  /** The rows of one type inside the inclusive bounds. */
  function PeriodFilter(kind: Kind, from: Option<CalendarDate>, to: Option<CalendarDate>): Filter {
    Filter(OnlyKind(kind), from, to)
  }

  function SumCents(rows: seq<Transaction>): int {
    if rows == [] then 0 else rows[0].cents + SumCents(rows[1..])
  }

  /** `SELECT SUM(amount) ... WHERE <filter>`: NULL (None) when no row matches. */
  function SqlSum(rows: seq<Transaction>, f: Filter): (r: Option<int>)
    ensures r.None? <==> forall t :: t in rows ==> !Matches(f, t)
    ensures r.Some? ==> r.value == SumCents(Select(rows, f))
  {
    var m := Select(rows, f);
    if m == [] then None
    else
      assert m[0] in m;
      Some(SumCents(m))
  }

  /** Python's `value or 0` applied to a fetched SUM. */
  function OrZero(v: Option<int>): int {
    match v
    case Some(x) => x
    case None => 0
  }

  datatype Summary = Summary(income: int, expenses: int, balance: int)

  /** A MySQL error caught by the report's `except mysql.connector.Error`, or a bound that is not a date. */
  datatype ReportError = InvalidDate | DatabaseError

  // ---------------------------------------------------------------- summary SQL

  const SumFromTransactions := "SELECT SUM(amount) FROM transactions"
  const IncomeSumQuery := SumFromTransactions + " WHERE " + "type = 'income'"
  const ExpenseSumQuery := SumFromTransactions + " WHERE " + "type = 'expense'"

  /** The text " WHERE " starts at position i of q. */
  predicate WhereAt(q: string, i: int) {
    0 <= i && i + 7 <= |q| && q[i..i + 7] == " WHERE "
  }

  /** The date conditions and parameters both report builders append, From before To. */
  method DateBoundConditions(dateFrom: string, dateTo: string) returns (conditions: seq<string>, params: seq<string>)
    ensures conditions == FromPart(dateFrom) + ToPart(dateTo)
    ensures params == TextParam(dateFrom) + TextParam(dateTo)
    ensures |conditions| == |params|
  {
    conditions, params := [], [];
    if dateFrom != "" {
      conditions := conditions + [FromCondition];
      params := params + [dateFrom];
    }
    if dateTo != "" {
      conditions := conditions + [ToCondition];
      params := params + [dateTo];
    }
  }

  /**
   * The text of one statement `generate_summary_report` executes: the base
   * query (which already ends in `WHERE type = ...`) followed by
   * `" WHERE " + " AND ".join(conditions)` when any bound is given.
   */
  function SummaryQuery(base: string, dateFrom: string, dateTo: string): string {
    base + WhereClause(FromPart(dateFrom) + ToPart(dateTo))
  }

  /** The two statements `generate_summary_report` builds, and their shared parameters. */
  method BuildSummaryQueries(dateFrom: string, dateTo: string) returns (incomeQuery: string, expenseQuery: string, params: seq<string>)
    ensures incomeQuery == SummaryQuery(IncomeSumQuery, dateFrom, dateTo)
    ensures expenseQuery == SummaryQuery(ExpenseSumQuery, dateFrom, dateTo)
    ensures params == TextParam(dateFrom) + TextParam(dateTo)
  {
    incomeQuery := IncomeSumQuery;
    expenseQuery := ExpenseSumQuery;
    var conditions;
    conditions, params := DateBoundConditions(dateFrom, dateTo);
    if conditions != [] {
      var whereClause := " WHERE " + Join(" AND ", conditions);
      incomeQuery := incomeQuery + whereClause;
      expenseQuery := expenseQuery + whereClause;
    }
  }

  /**
   * What MySQL does with these statements: a SELECT whose text has the
   * keyword " WHERE " at two places is a syntax error.
   */
  predicate MySqlRefuses(q: string) {
    exists i, j :: 0 <= i < j < |q| && WhereAt(q, i) && WhereAt(q, j)
  }

  /** Appending a clause that starts with " WHERE " keeps the base's own " WHERE " and adds one after it. */
  lemma SecondWhere(base: string, clause: string)
    requires |clause| >= 7 && clause[..7] == " WHERE "
    requires |base| >= |SumFromTransactions| + 7 && base[..|SumFromTransactions| + 7] == SumFromTransactions + " WHERE "
    ensures WhereAt(base + clause, |SumFromTransactions|) && WhereAt(base + clause, |base|)
  {
    var n := |SumFromTransactions|;
    assert (base + clause)[n..n + 7] == base[..n + 7][n..] == " WHERE ";
    assert (base + clause)[|base|..|base| + 7] == clause[..7];
  }

  lemma NoWInSummaryParts()
    ensures 'W' !in SumFromTransactions
    ensures 'W' !in "type = 'income'" && 'W' !in "type = 'expense'"
  {
  }

  /** The only W of a base query is the one of its own " WHERE ". */
  lemma OnlyOneW(base: string, cond: string)
    requires base == SumFromTransactions + " WHERE " + cond && 'W' !in cond
    ensures forall k :: 0 <= k < |base| && k != |SumFromTransactions| + 1 ==> base[k] != 'W'
  {
    NoWInSummaryParts();
    var n := |SumFromTransactions|;
    forall k | 0 <= k < |base| && k != n + 1 ensures base[k] != 'W' {
      if k < n {
        assert base[k] == SumFromTransactions[k] && SumFromTransactions[k] in SumFromTransactions;
      } else if k < n + 7 {
        assert base[k] == " WHERE "[k - n];
      } else {
        assert base[k] == cond[k - n - 7] && cond[k - n - 7] in cond;
      }
    }
  }

  /** A base query alone has one " WHERE ", so MySQL accepts it. */
  lemma BaseAccepted(base: string, cond: string)
    requires base == SumFromTransactions + " WHERE " + cond && 'W' !in cond
    ensures !MySqlRefuses(base)
  {
    OnlyOneW(base, cond);
    forall i, j | 0 <= i < j < |base| && WhereAt(base, i) ensures !WhereAt(base, j) {
      assert base[i + 1] == base[i..i + 7][1];
    }
  }

  /** A summary statement is refused exactly when a bound is given. */
  lemma SummaryQueryRefused(base: string, cond: string, dateFrom: string, dateTo: string)
    requires base == SumFromTransactions + " WHERE " + cond && 'W' !in cond
    ensures MySqlRefuses(SummaryQuery(base, dateFrom, dateTo)) <==> dateFrom != "" || dateTo != ""
  {
    var conditions := FromPart(dateFrom) + ToPart(dateTo);
    if conditions == [] {
      assert SummaryQuery(base, dateFrom, dateTo) == base;
      BaseAccepted(base, cond);
    } else {
      var clause := " WHERE " + Join(" AND ", conditions);
      assert clause[..7] == " WHERE ";
      assert base[..|SumFromTransactions| + 7] == SumFromTransactions + " WHERE ";
      SecondWhere(base, clause);
      assert SummaryQuery(base, dateFrom, dateTo) == base + clause;
    }
  }

  /**
   * `generate_summary_report` as written: it executes the two statements it
   * built; one MySQL refuses ends in the handler's database error, otherwise
   * the totals are those of the statements' conditions.
   */
  function SummaryReportAsWritten(rows: seq<Transaction>, dateFrom: string, dateTo: string): (r: Result<Summary, ReportError>)
    ensures r.Ok? <==> dateFrom == "" && dateTo == ""
    ensures r.Ok? ==> r.value == SummaryReport(rows, None, None)
    ensures r.Err? ==> r.error == DatabaseError
  {
    NoWInSummaryParts();
    SummaryQueryRefused(IncomeSumQuery, "type = 'income'", dateFrom, dateTo);
    SummaryQueryRefused(ExpenseSumQuery, "type = 'expense'", dateFrom, dateTo);
    if MySqlRefuses(SummaryQuery(IncomeSumQuery, dateFrom, dateTo)) ||
       MySqlRefuses(SummaryQuery(ExpenseSumQuery, dateFrom, dateTo))
    then Err(DatabaseError)
    else Ok(SummaryReport(rows, Bound(dateFrom), Bound(dateTo)))
  }

  /**
   * The summary the code evidently intends (see SummaryReportAsWritten):
   * the totals of the rows inside the bounds.  Each side is the sum of its
   * rows, zero when it has none (NULL turned into 0), and the balance is
   * income minus expenses.
   */
  function SummaryReport(rows: seq<Transaction>, from: Option<CalendarDate>, to: Option<CalendarDate>): (s: Summary)
    ensures s.income == SumCents(Select(rows, PeriodFilter(Income, from, to)))
    ensures s.expenses == SumCents(Select(rows, PeriodFilter(Expense, from, to)))
    ensures s.balance == s.income - s.expenses
  {
    var income := OrZero(SqlSum(rows, PeriodFilter(Income, from, to)));
    var expenses := OrZero(SqlSum(rows, PeriodFilter(Expense, from, to)));
    Summary(income, expenses, income - expenses)
  }

  // ---------------------------------------------------------------- category report

  const CategorySumQuery := "SELECT category, SUM(amount) FROM transactions WHERE type = %s"
  const GroupByCategory := " GROUP BY category ORDER BY SUM(amount) DESC"

  /**
   * The statement `generate_category_report` executes: the type parameter
   * first, then the date conditions joined to the existing WHERE with AND.
   * With bounds that passed the date check, it selects exactly the rows of
   * that type inside the bounds.
   */
  method BuildCategoryQuery(kind: Kind, dateFrom: string, dateTo: string) returns (st: Statement)
    requires dateFrom == "" || ParseDate(dateFrom).Some?
    requires dateTo == "" || ParseDate(dateTo).Some?
    ensures st.params == [KindName(kind)] + TextParam(dateFrom) + TextParam(dateTo)
    ensures st.sql == CategorySumQuery +
      (if dateFrom == "" && dateTo == "" then "" else " AND " + Join(" AND ", FromPart(dateFrom) + ToPart(dateTo))) +
      GroupByCategory
    ensures Expresses(st, PeriodFilter(kind, Bound(dateFrom), Bound(dateTo)))
  {
    var query := CategorySumQuery;
    var params := [KindName(kind)];
    var conditions, boundParams := DateBoundConditions(dateFrom, dateTo);
    params := params + boundParams;
    if conditions != [] {
      query := query + (" AND " + Join(" AND ", conditions));
    }
    query := query + GroupByCategory;
    BuiltConditionsMean(OnlyKind(kind), dateFrom, dateTo);
    assert [TypeCondition] + conditions == TypePart(OnlyKind(kind)) + FromPart(dateFrom) + ToPart(dateTo);
    assert params == TypeParam(OnlyKind(kind)) + TextParam(dateFrom) + TextParam(dateTo);
    st := Statement(query, [TypeCondition] + conditions, params);
  }

  /** One row of the GROUP BY result: a category and the SUM of its amounts. */
  datatype CategoryTotal = CategoryTotal(category: string, total: int)

  function WithCategory(rows: seq<Transaction>, c: string): seq<Transaction> {
    if rows == [] then []
    else (if rows[0].category == c then [rows[0]] else []) + WithCategory(rows[1..], c)
  }

  /** The SUM of one group. */
  function GroupSum(rows: seq<Transaction>, c: string): int {
    SumCents(WithCategory(rows, c))
  }

  function Names(out: seq<CategoryTotal>): (names: seq<string>)
    ensures |names| == |out| && forall i :: 0 <= i < |out| ==> names[i] == out[i].category
  {
    if out == [] then [] else [out[0].category] + Names(out[1..])
  }

  function TotalOf(out: seq<CategoryTotal>): int {
    if out == [] then 0 else out[0].total + TotalOf(out[1..])
  }

  /** `GROUP BY category ORDER BY SUM(amount) DESC`: one row per category of the selected rows, largest sum first. */
  ghost predicate IsBreakdown(out: seq<CategoryTotal>, rows: seq<Transaction>, f: Filter) {
    var m := Select(rows, f);
    (forall i :: 0 <= i < |out| ==> out[i].total == GroupSum(m, out[i].category)) &&
    Distinct(Names(out)) &&
    (forall c :: c in Names(out) <==> exists t :: t in m && t.category == c) &&
    SortedDesc(out, (g: CategoryTotal) => g.total)
  }

  /** The categories of rows, each once, in order of first appearance. */
  function DistinctCategories(rows: seq<Transaction>): (cats: seq<string>)
    ensures Distinct(cats)
    ensures forall c :: c in cats <==> exists t :: t in rows && t.category == c
  {
    if rows == [] then []
    else
      var rest := DistinctCategories(rows[1..]);
      assert forall t :: t in rows <==> t == rows[0] || t in rows[1..];
      if rows[0].category in rest then rest else [rows[0].category] + rest
  }

  function Groups(rows: seq<Transaction>, cats: seq<string>): (gs: seq<CategoryTotal>)
    ensures Names(gs) == cats
    ensures forall i :: 0 <= i < |gs| ==> gs[i].total == GroupSum(rows, gs[i].category)
  {
    if cats == [] then [] else [CategoryTotal(cats[0], GroupSum(rows, cats[0]))] + Groups(rows, cats[1..])
  }

  /** One result the category statement may return (rows with equal sums may come in any order). */
  function Breakdown(rows: seq<Transaction>, f: Filter): (out: seq<CategoryTotal>)
    ensures IsBreakdown(out, rows, f)
  {
    var m := Select(rows, f);
    var gs := Groups(m, DistinctCategories(m));
    var out := SortDesc(gs, (g: CategoryTotal) => g.total);
    ReorderedSums(m, gs, out);
    ReorderedNamesDistinct(m, gs, out);
    ReorderedNames(gs, out);
    out
  }

  lemma ReorderedSums(m: seq<Transaction>, gs: seq<CategoryTotal>, out: seq<CategoryTotal>)
    requires forall i :: 0 <= i < |gs| ==> gs[i].total == GroupSum(m, gs[i].category)
    requires multiset(out) == multiset(gs)
    ensures forall i :: 0 <= i < |out| ==> out[i].total == GroupSum(m, out[i].category)
  {
    forall i | 0 <= i < |out| ensures out[i].total == GroupSum(m, out[i].category) {
      assert out[i] in multiset(gs);
      var j :| 0 <= j < |gs| && gs[j] == out[i];
    }
  }

  lemma ReorderedNamesDistinct(m: seq<Transaction>, gs: seq<CategoryTotal>, out: seq<CategoryTotal>)
    requires Distinct(Names(gs))
    requires forall i :: 0 <= i < |out| ==> out[i].total == GroupSum(m, out[i].category)
    requires multiset(out) == multiset(gs)
    ensures Distinct(Names(out))
  {
    forall i, j | 0 <= i < j < |gs| ensures gs[i] != gs[j] {
      assert Names(gs)[i] != Names(gs)[j];
    }
    DistinctPermutation(gs, out);
    forall i, j | 0 <= i < j < |out| ensures Names(out)[i] != Names(out)[j] {
      assert out[i] != out[j];
    }
  }

  lemma ReorderedNames(gs: seq<CategoryTotal>, out: seq<CategoryTotal>)
    requires multiset(out) == multiset(gs)
    ensures forall c :: c in Names(out) <==> c in Names(gs)
  {
    forall c | c in Names(out) ensures c in Names(gs) {
      var i :| 0 <= i < |out| && Names(out)[i] == c;
      assert out[i] in multiset(gs);
      var j :| 0 <= j < |gs| && gs[j] == out[i];
      assert Names(gs)[j] == c;
    }
    forall c | c in Names(gs) ensures c in Names(out) {
      var j :| 0 <= j < |gs| && Names(gs)[j] == c;
      assert gs[j] in multiset(out);
      var i :| 0 <= i < |out| && out[i] == gs[j];
      assert Names(out)[i] == c;
    }
  }

  // ---------------------------------------------------------------- report lemmas

  /** The sums of the groups named in names. */
  function CategorySums(m: seq<Transaction>, names: seq<string>): int {
    if names == [] then 0 else GroupSum(m, names[0]) + CategorySums(m, names[1..])
  }

  lemma {:induction false} CategorySumsOfNothing(names: seq<string>)
    ensures CategorySums([], names) == 0
  {
    if names != [] {
      CategorySumsOfNothing(names[1..]);
    }
  }

  /** Taking the first row off the table takes its amount off exactly one group, if its category is named. */
  lemma {:induction false} CategorySumsStep(m: seq<Transaction>, names: seq<string>)
    requires m != [] && Distinct(names)
    ensures CategorySums(m, names) == CategorySums(m[1..], names) + (if m[0].category in names then m[0].cents else 0)
  {
    if names != [] {
      assert Distinct(names[1..]) by {
        forall i, j | 0 <= i < j < |names[1..]| ensures names[1..][i] != names[1..][j] {
          assert names[1..][i] == names[i + 1] && names[1..][j] == names[j + 1];
        }
      }
      CategorySumsStep(m, names[1..]);
      var w := WithCategory(m, names[0]);
      if m[0].category == names[0] {
        assert w == [m[0]] + WithCategory(m[1..], names[0]);
        assert w[1..] == WithCategory(m[1..], names[0]);
        assert names[0] !in names[1..] by {
          forall j | 1 <= j < |names| ensures names[j] != names[0] {
            assert names[0] != names[j];
          }
        }
      } else {
        assert w == WithCategory(m[1..], names[0]);
      }
      assert m[0].category in names <==> m[0].category == names[0] || m[0].category in names[1..];
    }
  }

  /** The sums of all groups add up to the sum of all rows, when every category is named once. */
  lemma {:induction false} CategorySumsTotal(m: seq<Transaction>, names: seq<string>)
    requires Distinct(names)
    requires forall t :: t in m ==> t.category in names
    ensures CategorySums(m, names) == SumCents(m)
  {
    if m == [] {
      CategorySumsOfNothing(names);
    } else {
      CategorySumsStep(m, names);
      assert m[0] in m;
      CategorySumsTotal(m[1..], names);
    }
  }

  lemma {:induction false} TotalOfGroups(out: seq<CategoryTotal>, m: seq<Transaction>)
    requires forall i :: 0 <= i < |out| ==> out[i].total == GroupSum(m, out[i].category)
    ensures TotalOf(out) == CategorySums(m, Names(out))
  {
    if out != [] {
      TotalOfGroups(out[1..], m);
      assert Names(out)[1..] == Names(out[1..]);
    }
  }

  /** The category rows of a report add up to the total of the rows it selects. */
  lemma BreakdownTotal(out: seq<CategoryTotal>, rows: seq<Transaction>, f: Filter)
    requires IsBreakdown(out, rows, f)
    ensures TotalOf(out) == SumCents(Select(rows, f))
  {
    var m := Select(rows, f);
    TotalOfGroups(out, m);
    forall t | t in m ensures t.category in Names(out) {
    }
    CategorySumsTotal(m, Names(out));
  }

  /** For one type, the category report and the summary agree on that type's total. */
  lemma BreakdownMatchesSummary(out: seq<CategoryTotal>, rows: seq<Transaction>, kind: Kind,
                                from: Option<CalendarDate>, to: Option<CalendarDate>)
    requires IsBreakdown(out, rows, PeriodFilter(kind, from, to))
    ensures TotalOf(out) == (if kind == Income then SummaryReport(rows, from, to).income
                             else SummaryReport(rows, from, to).expenses)
  {
    BreakdownTotal(out, rows, PeriodFilter(kind, from, to));
  }

  lemma SelectedIsListed(out: seq<CategoryTotal>, rows: seq<Transaction>, f: Filter, t: Transaction)
    requires IsBreakdown(out, rows, f) && t in Select(rows, f)
    ensures t.category in Names(out)
  {
  }

  /** The category report is empty exactly when no row of that type falls inside the bounds. */
  lemma BreakdownEmpty(out: seq<CategoryTotal>, rows: seq<Transaction>, f: Filter)
    requires IsBreakdown(out, rows, f)
    ensures out == [] <==> forall t :: t in rows ==> !Matches(f, t)
  {
    var m := Select(rows, f);
    if out == [] {
      if m != [] {
        SelectedIsListed(out, rows, f, m[0]);
        assert false;
      }
    } else {
      assert Names(out)[0] in Names(out);
    }
  }

  // ---------------------------------------------------------------- generate_report

  /** The three report types of the radio buttons. */
  datatype ReportKind = SummaryOfTotals | CategoriesOf(kind: Kind)

  function ReportKindNamed(s: string): (r: Option<ReportKind>)
    ensures r == Some(SummaryOfTotals) <==> s == "summary"
    ensures r == Some(CategoriesOf(Income)) <==> s == "income_categories"
    ensures r == Some(CategoriesOf(Expense)) <==> s == "expense_categories"
  {
    if s == "summary" then Some(SummaryOfTotals)
    else if s == "income_categories" then Some(CategoriesOf(Income))
    else if s == "expense_categories" then Some(CategoriesOf(Expense))
    else None
  }

  /** What the report area shows. */
  datatype Report =
    | Totals(summary: Summary, pie: bool)
    | CategoryChart(kind: Kind, totals: seq<CategoryTotal>)
    | NoCategoryData(kind: Kind)
    | NothingShown

  /** The summary's pie chart is drawn only when one of the totals is positive; otherwise a "no data" label. */
  predicate ShowsPie(s: Summary) {
    s.income > 0 || s.expenses > 0
  }

  /** The summary text, with the pie chart or the "no data" label under it. */
  function SummaryShown(s: Summary): (r: Report)
    ensures r.Totals? && r.summary == s
    ensures r.pie <==> s.income > 0 || s.expenses > 0
  {
    Totals(s, ShowsPie(s))
  }

  /** A bound that is given and is not a date. */
  predicate BadBound(text: string) {
    text != "" && ParseDate(text).None?
  }

  /**
   * `generate_category_report` once its statement has run: the "no data"
   * label when no row matches, otherwise the bar chart of the groups.
   */
  function CategoryReport(rows: seq<Transaction>, kind: Kind, from: Option<CalendarDate>, to: Option<CalendarDate>): (r: Report)
    ensures r.NoCategoryData? || r.CategoryChart?
    ensures r == NoCategoryData(kind) <==> forall t :: t in rows ==> !Matches(PeriodFilter(kind, from, to), t)
    ensures r.CategoryChart? ==> r.kind == kind && IsBreakdown(r.totals, rows, PeriodFilter(kind, from, to)) && r.totals != []
  {
    var f := PeriodFilter(kind, from, to);
    var out := Breakdown(rows, f);
    BreakdownEmpty(out, rows, f);
    if out == [] then NoCategoryData(kind) else CategoryChart(kind, out)
  }

  /**
   * `generate_report` as written: both bounds are checked first (an invalid
   * one stops everything with the date error), then the chosen report is
   * produced.  The summary is the one the code runs, so a summary over a
   * period ends in the database error (see SummaryReportAsWritten).  An
   * unknown report type shows nothing.
   */
  function GenerateReport(rows: seq<Transaction>, reportType: string, dateFrom: string, dateTo: string): (r: Result<Report, ReportError>)
    ensures r.Err? <==> BadBound(dateFrom) || BadBound(dateTo) || (reportType == "summary" && (dateFrom != "" || dateTo != ""))
    ensures BadBound(dateFrom) || BadBound(dateTo) ==> r == Err(InvalidDate)
    ensures r.Err? && !BadBound(dateFrom) && !BadBound(dateTo) ==> r.error == DatabaseError
    ensures r.Ok? && reportType == "summary" ==>
      r.value == SummaryShown(SummaryReport(rows, None, None))
    ensures r.Ok? && ReportKindNamed(reportType).None? ==> r.value == NothingShown
    ensures r.Ok? && ReportKindNamed(reportType).Some? && ReportKindNamed(reportType).value.CategoriesOf? ==>
      r.value == CategoryReport(rows, ReportKindNamed(reportType).value.kind, Bound(dateFrom), Bound(dateTo))
  {
    if BadBound(dateFrom) || BadBound(dateTo) then Err(InvalidDate)
    else
      match ReportKindNamed(reportType)
      case None => Ok(NothingShown)
      case Some(SummaryOfTotals) =>
        (match SummaryReportAsWritten(rows, dateFrom, dateTo)
         case Err(e) => Err(e)
         case Ok(s) => Ok(SummaryShown(s)))
      case Some(CategoriesOf(kind)) => Ok(CategoryReport(rows, kind, Bound(dateFrom), Bound(dateTo)))
  }

  /**
   * `generate_report` as evidently intended: the same checks and dispatch,
   * with the corrected summary over the given period.
   */
  function GenerateReportIntended(rows: seq<Transaction>, reportType: string, dateFrom: string, dateTo: string): (r: Result<Report, ReportError>)
    ensures r.Err? <==> BadBound(dateFrom) || BadBound(dateTo)
    ensures r.Err? ==> r.error == InvalidDate
    ensures r.Ok? && reportType == "summary" ==>
      r.value == SummaryShown(SummaryReport(rows, Bound(dateFrom), Bound(dateTo)))
    ensures r.Ok? && ReportKindNamed(reportType).None? ==> r.value == NothingShown
    ensures r.Ok? && reportType != "summary" ==> r == GenerateReport(rows, reportType, dateFrom, dateTo)
  {
    if BadBound(dateFrom) || BadBound(dateTo) then Err(InvalidDate)
    else
      match ReportKindNamed(reportType)
      case None => Ok(NothingShown)
      case Some(SummaryOfTotals) => Ok(SummaryShown(SummaryReport(rows, Bound(dateFrom), Bound(dateTo))))
      case Some(CategoriesOf(kind)) => Ok(CategoryReport(rows, kind, Bound(dateFrom), Bound(dateTo)))
  }

  /** With positive amounts, the sum of some rows is positive exactly when there is a row. */
  lemma {:induction false} SumOfPositive(m: seq<Transaction>)
    requires forall t :: t in m ==> t.cents > 0
    ensures SumCents(m) >= 0 && (SumCents(m) > 0 <==> m != [])
  {
    if m != [] {
      assert m[0] in m;
      forall t | t in m[1..] ensures t.cents > 0 {
        assert t in m;
      }
      SumOfPositive(m[1..]);
    }
  }

  /**
   * With the positive amounts the forms store, the pie is drawn exactly
   * when some row of either type lies in the period.
   */
  lemma PieIffData(rows: seq<Transaction>, from: Option<CalendarDate>, to: Option<CalendarDate>)
    requires forall t :: t in rows ==> t.cents > 0
    ensures ShowsPie(SummaryReport(rows, from, to)) <==>
      exists t :: t in rows && (Matches(PeriodFilter(Income, from, to), t) || Matches(PeriodFilter(Expense, from, to), t))
  {
    var inc := Select(rows, PeriodFilter(Income, from, to));
    var exp := Select(rows, PeriodFilter(Expense, from, to));
    SumOfPositive(inc);
    SumOfPositive(exp);
    if inc != [] {
      assert inc[0] in inc;
    }
    if exp != [] {
      assert exp[0] in exp;
    }
  }

  /**
   * A summary over a period: the code as written fails with a database
   * error, while the intended report totals the rows of that period.
   */
  lemma SummaryWithBoundFails(rows: seq<Transaction>)
    ensures SummaryReportAsWritten(rows, "2024-01-01", "") == Err(DatabaseError)
    ensures GenerateReport(rows, "summary", "2024-01-01", "") == Err(DatabaseError)
    ensures GenerateReportIntended(rows, "summary", "2024-01-01", "") ==
      Ok(SummaryShown(SummaryReport(rows, Some(Date(2024, 1, 1)), None)))
  {
    var d: CalendarDate := Date(2024, 1, 1);
    assert IsoText(d) == "2024-01-01";
    ParseIsoText(d);
  }
}
