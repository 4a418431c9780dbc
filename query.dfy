/**
 * The transaction list (finance_manager.py `load_transactions`): the filter
 * the user types, the SQL text and parameter list built from it, what that
 * statement means as a predicate over rows, and the rows it returns.
 */
module TransactionQuery {
  import opened Results
  import opened Calendar
  import opened Text
  import opened Sorting
  import opened Records

  /** The "Filter by" radio buttons: "all", "income" or "expense". */
  datatype Selector = AllTypes | OnlyKind(kind: Kind)

  /** Which bound failed the `%Y-%m-%d` check; the two have different messages. */
  datatype FilterError = BadFromDate | BadToDate

  /** A validated filter: the selector and the inclusive bounds that were given. */
  datatype Filter = Filter(selector: Selector, from: Option<CalendarDate>, to: Option<CalendarDate>)

  /** The rows a filter keeps: type matches unless "all", date >= from, date <= to, all together. */
  predicate Matches(f: Filter, t: Transaction) {
    (f.selector.AllTypes? || t.kind == f.selector.kind) &&
    (f.from.Some? ==> DateLe(f.from.value, t.date)) &&
    (f.to.Some? ==> DateLe(t.date, f.to.value))
  }

  /** An empty entry is no bound; any other text is parsed. */
  function Bound(text: string): Option<CalendarDate> {
    if text == "" then None else ParseDate(text)
  }

  /**
   * The filter the three inputs stand for, or the error for the first bound
   * (From before To) that is given and is not a date.  A bound that is given
   * is never dropped.
   */
  function ParseFilter(sel: Selector, dateFrom: string, dateTo: string): (r: Result<Filter, FilterError>)
    ensures r == Err(BadFromDate) <==> dateFrom != "" && ParseDate(dateFrom).None?
    ensures r == Err(BadToDate) <==>
      (dateFrom == "" || ParseDate(dateFrom).Some?) && dateTo != "" && ParseDate(dateTo).None?
    ensures r.Ok? ==> (r.value.selector == sel &&
      (r.value.from.Some? <==> dateFrom != "") && (r.value.to.Some? <==> dateTo != ""))
    ensures r.Ok? && dateFrom != "" ==> r.value.from == ParseDate(dateFrom)
    ensures r.Ok? && dateTo != "" ==> r.value.to == ParseDate(dateTo)
  {
    if dateFrom != "" && ParseDate(dateFrom).None? then Err(BadFromDate)
    else if dateTo != "" && ParseDate(dateTo).None? then Err(BadToDate)
    else Ok(Filter(sel, Bound(dateFrom), Bound(dateTo)))
  }

  // ---------------------------------------------------------------- SQL text

  const SelectTransactions := "SELECT id, type, category, amount, description, date FROM transactions"
  const TypeCondition := "type = %s"
  const FromCondition := "date >= %s"
  const ToCondition := "date <= %s"
  const OrderByDateDesc := " ORDER BY date DESC"

  /** A statement as handed to `cursor.execute`: the SQL text and its parameters, with the condition list it was built from. */
  datatype Statement = Statement(sql: string, conditions: seq<string>, params: seq<string>)

  function WhereClause(conditions: seq<string>): string {
    if conditions == [] then "" else " WHERE " + Join(" AND ", conditions)
  }

  // ---------------------------------------------------------------- meaning

  /** One condition of the WHERE clause with its parameter bound in. */
  datatype Clause = TypeIs(kind: Kind) | OnOrAfter(bound: CalendarDate) | OnOrBefore(bound: CalendarDate)

  /**
   * How the store reads one placeholder condition together with the
   * parameter in the same position; None for a text it cannot read.
   */
  function ReadClause(condition: string, param: string): Option<Clause> {
    if condition == TypeCondition then
      (match KindNamed(param) case Some(k) => Some(TypeIs(k)) case None => None)
    else if condition == FromCondition then
      (match ParseDate(param) case Some(d) => Some(OnOrAfter(d)) case None => None)
    else if condition == ToCondition then
      (match ParseDate(param) case Some(d) => Some(OnOrBefore(d)) case None => None)
    else None
  }

  /** Reads the conditions pairwise with the parameters: `params[i]` belongs to `conditions[i]`. */
  function ReadClauses(conditions: seq<string>, params: seq<string>): (r: Option<seq<Clause>>)
    requires |conditions| == |params|
    ensures r.Some? ==> |r.value| == |conditions|
  {
    if conditions == [] then Some([])
    else
      var n := |conditions| - 1;
      match (ReadClauses(conditions[..n], params[..n]), ReadClause(conditions[n], params[n]))
      case (Some(cs), Some(c)) => Some(cs + [c])
      case _ => None
  }

  predicate Holds(c: Clause, t: Transaction) {
    match c
    case TypeIs(k) => t.kind == k
    case OnOrAfter(d) => DateLe(d, t.date)
    case OnOrBefore(d) => DateLe(t.date, d)
  }

  /** The WHERE clause joins its conditions with AND only. */
  predicate HoldsAll(cs: seq<Clause>, t: Transaction) {
    forall i :: 0 <= i < |cs| ==> Holds(cs[i], t)
  }

  /** The statement selects exactly the rows the filter keeps. */
  ghost predicate Expresses(st: Statement, f: Filter) {
    |st.conditions| == |st.params| &&
    ReadClauses(st.conditions, st.params).Some? &&
    forall t :: HoldsAll(ReadClauses(st.conditions, st.params).value, t) <==> Matches(f, t)
  }

  // ---------------------------------------------------------------- building

  /**
   * The statement `load_transactions` builds: a type condition unless the
   * selector is "all", then a From and a To condition for each non-empty
   * bound, each appended with its parameter; a bound that is not a date
   * stops the load with no statement at all.
   */
  method BuildTransactionQuery(sel: Selector, dateFrom: string, dateTo: string) returns (r: Result<Statement, FilterError>)
    ensures r.Err? <==> ParseFilter(sel, dateFrom, dateTo).Err?
    ensures r.Err? ==> r.error == ParseFilter(sel, dateFrom, dateTo).error
    ensures r.Ok? ==> Expresses(r.value, ParseFilter(sel, dateFrom, dateTo).value)
    ensures r.Ok? ==> r.value.conditions == TypePart(sel) + FromPart(dateFrom) + ToPart(dateTo)
    ensures r.Ok? ==> r.value.params == TypeParam(sel) + TextParam(dateFrom) + TextParam(dateTo)
    ensures r.Ok? ==> r.value.sql == SelectTransactions + WhereClause(r.value.conditions) + OrderByDateDesc
  {
    var collected := CollectConditions(sel, dateFrom, dateTo);
    if collected.Err? {
      return Err(collected.error);
    }
    var conditions, params := collected.value.0, collected.value.1;
    var sql := SelectTransactions;
    if conditions != [] {
      sql := sql + (" WHERE " + Join(" AND ", conditions));
    }
    sql := sql + OrderByDateDesc;
    r := Ok(Statement(sql, conditions, params));
    BuiltConditionsMean(sel, dateFrom, dateTo);
  }

  /**
   * The first half of `load_transactions`: the condition and parameter
   * lists, appended to in the order type, From, To; a bound that is not a
   * date stops the collection.
   */
  method CollectConditions(sel: Selector, dateFrom: string, dateTo: string)
    returns (r: Result<(seq<string>, seq<string>), FilterError>)
    ensures r.Err? <==> ParseFilter(sel, dateFrom, dateTo).Err?
    ensures r.Err? ==> r.error == ParseFilter(sel, dateFrom, dateTo).error
    ensures r.Ok? ==> r.value.0 == TypePart(sel) + FromPart(dateFrom) + ToPart(dateTo)
    ensures r.Ok? ==> r.value.1 == TypeParam(sel) + TextParam(dateFrom) + TextParam(dateTo)
  {
    var conditions: seq<string> := [];
    var params: seq<string> := [];
    if sel != AllTypes {
      conditions := conditions + [TypeCondition];
      params := params + [KindName(sel.kind)];
    }
    assert conditions == TypePart(sel) && params == TypeParam(sel);
    if dateFrom != "" {
      if ParseDate(dateFrom).None? {
        return Err(BadFromDate);
      }
      conditions := conditions + [FromCondition];
      params := params + [dateFrom];
    }
    assert conditions == TypePart(sel) + FromPart(dateFrom);
    assert params == TypeParam(sel) + TextParam(dateFrom);
    if dateTo != "" {
      if ParseDate(dateTo).None? {
        return Err(BadToDate);
      }
      conditions := conditions + [ToCondition];
      params := params + [dateTo];
    }
    r := Ok((conditions, params));
  }

  /** The condition each input contributes (none for "all" or an empty bound), in append order. */
  function TypePart(sel: Selector): seq<string> { if sel != AllTypes then [TypeCondition] else [] }
  function FromPart(dateFrom: string): seq<string> { if dateFrom != "" then [FromCondition] else [] }
  function ToPart(dateTo: string): seq<string> { if dateTo != "" then [ToCondition] else [] }
  /** The parameter each input contributes, in the same positions. */
  function TypeParam(sel: Selector): seq<string> { if sel != AllTypes then [KindName(sel.kind)] else [] }
  function TextParam(text: string): seq<string> { if text != "" then [text] else [] }

  /** The condition list and parameter list the builder produces mean the parsed filter. */
  lemma BuiltConditionsMean(sel: Selector, dateFrom: string, dateTo: string)
    requires ParseFilter(sel, dateFrom, dateTo).Ok?
    ensures Expresses(Statement("", TypePart(sel) + FromPart(dateFrom) + ToPart(dateTo),
                                TypeParam(sel) + TextParam(dateFrom) + TextParam(dateTo)),
                      ParseFilter(sel, dateFrom, dateTo).value)
  {
    var cs1 := TypeStep(sel);
    var cs2 := FromStep(TypePart(sel), TypeParam(sel), cs1, Filter(sel, None, None), dateFrom);
    var cs3 := ToStep(TypePart(sel) + FromPart(dateFrom), TypeParam(sel) + TextParam(dateFrom), cs2,
                      Filter(sel, Bound(dateFrom), None), dateTo);
  }

  lemma TypeStep(sel: Selector) returns (cs: seq<Clause>)
    ensures ReadClauses(TypePart(sel), TypeParam(sel)) == Some(cs)
    ensures forall t :: HoldsAll(cs, t) <==> Matches(Filter(sel, None, None), t)
  {
    cs := [];
    if sel != AllTypes {
      KindNameRoundTrip(sel.kind);
      assert ReadClause(TypeCondition, KindName(sel.kind)) == Some(TypeIs(sel.kind));
      AppendClause([], [], [], TypeCondition, KindName(sel.kind));
      assert TypePart(sel) == [] + [TypeCondition] && TypeParam(sel) == [] + [KindName(sel.kind)];
      cs := [] + [TypeIs(sel.kind)];
    }
  }

  lemma FromStep(c: seq<string>, p: seq<string>, cs: seq<Clause>, f: Filter, dateFrom: string) returns (cs': seq<Clause>)
    requires |c| == |p| && ReadClauses(c, p) == Some(cs)
    requires forall t :: HoldsAll(cs, t) <==> Matches(f, t)
    requires f.from.None? && f.to.None?
    requires dateFrom == "" || ParseDate(dateFrom).Some?
    ensures ReadClauses(c + FromPart(dateFrom), p + TextParam(dateFrom)) == Some(cs')
    ensures forall t :: HoldsAll(cs', t) <==> Matches(f.(from := Bound(dateFrom)), t)
  {
    if dateFrom == "" {
      assert c + FromPart(dateFrom) == c && p + TextParam(dateFrom) == p;
      cs' := cs;
    } else {
      AppendClause(c, p, cs, FromCondition, dateFrom);
      cs' := cs + [OnOrAfter(ParseDate(dateFrom).value)];
    }
  }

  lemma ToStep(c: seq<string>, p: seq<string>, cs: seq<Clause>, f: Filter, dateTo: string) returns (cs': seq<Clause>)
    requires |c| == |p| && ReadClauses(c, p) == Some(cs)
    requires forall t :: HoldsAll(cs, t) <==> Matches(f, t)
    requires f.to.None?
    requires dateTo == "" || ParseDate(dateTo).Some?
    ensures ReadClauses(c + ToPart(dateTo), p + TextParam(dateTo)) == Some(cs')
    ensures forall t :: HoldsAll(cs', t) <==> Matches(f.(to := Bound(dateTo)), t)
  {
    if dateTo == "" {
      assert c + ToPart(dateTo) == c && p + TextParam(dateTo) == p;
      cs' := cs;
    } else {
      AppendClause(c, p, cs, ToCondition, dateTo);
      cs' := cs + [OnOrBefore(ParseDate(dateTo).value)];
    }
  }

  /**
   * Appending one condition and its parameter appends the clause they read
   * as, and the rows the WHERE clause keeps are those kept before that also
   * satisfy the new clause.
   */
  lemma AppendClause(conditions: seq<string>, params: seq<string>, cs: seq<Clause>, condition: string, param: string)
    requires |conditions| == |params| && ReadClauses(conditions, params) == Some(cs)
    requires ReadClause(condition, param).Some?
    ensures ReadClauses(conditions + [condition], params + [param]) == Some(cs + [ReadClause(condition, param).value])
    ensures forall t :: HoldsAll(cs + [ReadClause(condition, param).value], t) <==>
      HoldsAll(cs, t) && Holds(ReadClause(condition, param).value, t)
  {
    assert (conditions + [condition])[..|conditions|] == conditions;
    assert (params + [param])[..|params|] == params;
    var c := ReadClause(condition, param).value;
    forall t ensures HoldsAll(cs + [c], t) <==> HoldsAll(cs, t) && Holds(c, t) {
      if HoldsAll(cs + [c], t) {
        assert (cs + [c])[|cs|] == c;
        forall i | 0 <= i < |cs| ensures Holds(cs[i], t) {
          assert (cs + [c])[i] == cs[i];
        }
      }
    }
  }

  /** The statement has a WHERE clause exactly when some condition was appended, and always ends with the ordering. */
  lemma WhereIffConditions(conditions: seq<string>)
    ensures var sql := SelectTransactions + WhereClause(conditions) + OrderByDateDesc;
      var n := |SelectTransactions|;
      n + 7 <= |sql| &&
      (sql[n..n + 7] == " WHERE " <==> conditions != []) &&
      sql[|sql| - |OrderByDateDesc|..] == OrderByDateDesc
  {
    var n := |SelectTransactions|;
    var sql := SelectTransactions + WhereClause(conditions) + OrderByDateDesc;
    if conditions == [] {
      assert sql[n..n + 7] == OrderByDateDesc[..7];
      assert OrderByDateDesc[..7][1] == 'O';
    } else {
      assert sql[n..n + 7] == WhereClause(conditions)[..7] == " WHERE ";
    }
    assert sql[|sql| - |OrderByDateDesc|..] == OrderByDateDesc;
  }

  // ---------------------------------------------------------------- result set

  /** The rows that satisfy every clause, in table order. */
  function SelectWhere(rows: seq<Transaction>, cs: seq<Clause>): (r: seq<Transaction>)
    ensures forall t :: t in r <==> t in rows && HoldsAll(cs, t)
    ensures multiset(r) <= multiset(rows)
  {
    if rows == [] then []
    else
      assert rows == [rows[0]] + rows[1..];
      (if HoldsAll(cs, rows[0]) then [rows[0]] else []) + SelectWhere(rows[1..], cs)
  }

  /** The rows a filter keeps, in table order. */
  function Select(rows: seq<Transaction>, f: Filter): (r: seq<Transaction>)
    ensures forall t :: t in r <==> t in rows && Matches(f, t)
    ensures multiset(r) <= multiset(rows)
  {
    if rows == [] then []
    else
      assert rows == [rows[0]] + rows[1..];
      (if Matches(f, rows[0]) then [rows[0]] else []) + Select(rows[1..], f)
  }

  predicate DateDescending(s: seq<Transaction>) {
    forall i, j :: 0 <= i < j < |s| ==> DateLe(s[j].date, s[i].date)
  }

  /**
   * What `ORDER BY date DESC` may return for a filter: the kept rows, each
   * as often as in the table, latest date first; rows of one date in any order.
   */
  ghost predicate IsListing(out: seq<Transaction>, rows: seq<Transaction>, f: Filter) {
    multiset(out) == multiset(Select(rows, f)) && DateDescending(out)
  }

  /** Sorts rows latest date first (one of the orders the store may use for equal dates). */
  function LatestFirst(rows: seq<Transaction>): (r: seq<Transaction>)
    ensures multiset(r) == multiset(rows) && DateDescending(r)
  {
    var r := SortDesc(rows, (t: Transaction) => DateKey(t.date));
    forall i, j | 0 <= i < j < |r| ensures DateLe(r[j].date, r[i].date) {
      DateKeyOrder(r[j].date, r[i].date);
    }
    r
  }

  /** Running a statement whose clauses mean the filter returns a listing for that filter. */
  lemma {:induction false} SelectWhereAgrees(rows: seq<Transaction>, cs: seq<Clause>, f: Filter)
    requires forall t :: HoldsAll(cs, t) <==> Matches(f, t)
    ensures SelectWhere(rows, cs) == Select(rows, f)
  {
    if rows != [] {
      SelectWhereAgrees(rows[1..], cs, f);
    }
  }

  lemma {:induction false} SelectKeepsMatching(rows: seq<Transaction>, f: Filter)
    requires forall t :: t in rows ==> Matches(f, t)
    ensures Select(rows, f) == rows
  {
    if rows != [] {
      SelectKeepsMatching(rows[1..], f);
      assert rows == [rows[0]] + rows[1..];
    }
  }

  /** Applying a filter again to its own listing gives that listing back. */
  lemma ListingIdempotent(out: seq<Transaction>, rows: seq<Transaction>, f: Filter)
    requires IsListing(out, rows, f)
    ensures IsListing(out, out, f)
  {
    forall t | t in out ensures Matches(f, t) {
      assert t in multiset(Select(rows, f));
    }
    SelectKeepsMatching(out, f);
  }

  /** With selector "all" and no bounds, the listing is the whole table. */
  lemma ListingAllIsTable(out: seq<Transaction>, rows: seq<Transaction>)
    requires IsListing(out, rows, Filter(AllTypes, None, None))
    ensures multiset(out) == multiset(rows)
  {
    SelectKeepsMatching(rows, Filter(AllTypes, None, None));
  }
}
