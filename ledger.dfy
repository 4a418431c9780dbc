/**
 * The `transactions` table and the three operations on it that carry
 * logic (finance_manager.py `add_transaction`, `save_changes` inside
 * `edit_transaction`, `load_transactions`): the input checks both writers
 * share, the column limits MySQL enforces, and the filtered listing.
 */
module TransactionStore {
  import opened Results
  import opened Calendar
  import opened Records
  import opened TransactionQuery

  /** Why an entry was refused: one of the form's three checks, or an error from MySQL. */
  datatype EntryError = NoCategory | NonPositiveAmount | InvalidDate | DatabaseError

  /**
   * The form's checks, in order: a category is selected, the amount is
   * positive, the date parses as `%Y-%m-%d`.  On success, the date.
   */
  function Validate(category: string, cents: int, dateText: string): (r: Result<CalendarDate, EntryError>)
    ensures r == Err(NoCategory) <==> category == ""
    ensures r == Err(NonPositiveAmount) <==> category != "" && cents <= 0
    ensures r == Err(InvalidDate) <==> category != "" && cents > 0 && ParseDate(dateText).None?
    ensures r.Ok? ==> ParseDate(dateText) == Some(r.value)
    ensures r != Err(DatabaseError)
  {
    if category == "" then Err(NoCategory)
    else if cents <= 0 then Err(NonPositiveAmount)
    else match ParseDate(dateText)
      case None => Err(InvalidDate)
      case Some(d) => Ok(d)
  }

  /** The inputs the form accepts. */
  lemma AcceptedInputs(category: string, cents: int, dateText: string)
    ensures Validate(category, cents, dateText).Ok? <==>
      category != "" && cents > 0 && ParseDate(dateText).Some?
  {
  }

  /** The column limits: VARCHAR(50) category, DECIMAL(10,2) amount, VARCHAR(255) description. */
  predicate Fits(category: string, cents: int, description: string) {
    |category| <= NameWidth && cents <= MaxCents && |description| <= DescriptionWidth
  }

  /** What every row written through the two forms satisfies. */
  predicate Storable(t: Transaction) {
    t.category != "" && 0 < t.cents && Fits(t.category, t.cents, t.description)
  }

  /**
   * The row the two writers store for the inputs: the checks first, then
   * the column limits (a value that does not fit is a MySQL data error in
   * strict mode).
   */
  function Entry(id: int, kind: Kind, category: string, cents: int, description: string, dateText: string): (r: Result<Transaction, EntryError>)
    ensures Validate(category, cents, dateText).Err? ==> r == Err(Validate(category, cents, dateText).error)
    ensures r == Err(DatabaseError) <==> Validate(category, cents, dateText).Ok? && !Fits(category, cents, description)
    ensures r.Ok? ==> (Storable(r.value) &&
      r.value == Transaction(id, kind, category, cents, description, ParseDate(dateText).value))
  {
    match Validate(category, cents, dateText)
    case Err(e) => Err(e)
    case Ok(d) =>
      if Fits(category, cents, description) then Ok(Transaction(id, kind, category, cents, description, d))
      else Err(DatabaseError)
  }

  /** `INSERT INTO transactions`: the new row takes the next id and goes at the end. */
  function Add(rows: seq<Transaction>, nextId: int, kind: Kind, category: string, cents: int,
               description: string, dateText: string): (r: Result<seq<Transaction>, EntryError>)
    ensures r.Err? <==> Entry(nextId, kind, category, cents, description, dateText).Err?
    ensures r.Err? ==> r.error == Entry(nextId, kind, category, cents, description, dateText).error
    ensures r.Ok? ==> (|r.value| == |rows| + 1 && r.value[..|rows|] == rows &&
      r.value[|rows|] == Entry(nextId, kind, category, cents, description, dateText).value)
  {
    match Entry(nextId, kind, category, cents, description, dateText)
    case Err(e) => Err(e)
    case Ok(t) => Ok(rows + [t])
  }

  /**
   * `UPDATE transactions SET ... WHERE id = %s`: every row with that id
   * takes the new values; when no row has it, nothing changes and the
   * update still succeeds.
   */
  function Update(rows: seq<Transaction>, id: int, kind: Kind, category: string, cents: int,
                  description: string, dateText: string): (r: Result<seq<Transaction>, EntryError>)
    ensures r.Err? <==> Entry(id, kind, category, cents, description, dateText).Err?
    ensures r.Err? ==> r.error == Entry(id, kind, category, cents, description, dateText).error
    ensures r.Ok? ==> |r.value| == |rows| && forall i :: 0 <= i < |rows| ==>
      r.value[i] == (if rows[i].id == id then Entry(id, kind, category, cents, description, dateText).value else rows[i])
  {
    match Entry(id, kind, category, cents, description, dateText)
    case Err(e) => Err(e)
    case Ok(t) => Ok(Replace(rows, id, t))
  }

  function Replace(rows: seq<Transaction>, id: int, t: Transaction): (r: seq<Transaction>)
    ensures |r| == |rows| && forall i :: 0 <= i < |rows| ==> r[i] == (if rows[i].id == id then t else rows[i])
  {
    if rows == [] then []
    else [if rows[0].id == id then t else rows[0]] + Replace(rows[1..], id, t)
  }

  // ---------------------------------------------------------------- properties

  /** Adding and editing apply the same checks, in the same order, with the same outcome. */
  lemma AddAndEditCheckAlike(rows: seq<Transaction>, nextId: int, id: int, kind: Kind, category: string,
                             cents: int, description: string, dateText: string)
    ensures Add(rows, nextId, kind, category, cents, description, dateText).Err? <==>
            Update(rows, id, kind, category, cents, description, dateText).Err?
    ensures Add(rows, nextId, kind, category, cents, description, dateText).Err? ==>
            Add(rows, nextId, kind, category, cents, description, dateText).error ==
            Update(rows, id, kind, category, cents, description, dateText).error
  {
  }

  /** Editing with an id that no row has leaves the table as it was. */
  lemma UpdateMissingId(rows: seq<Transaction>, id: int, kind: Kind, category: string,
                        cents: int, description: string, dateText: string)
    requires forall i :: 0 <= i < |rows| ==> rows[i].id != id
    requires Update(rows, id, kind, category, cents, description, dateText).Ok?
    ensures Update(rows, id, kind, category, cents, description, dateText).value == rows
  {
    var r := Update(rows, id, kind, category, cents, description, dateText).value;
    assert forall i :: 0 <= i < |rows| ==> r[i] == rows[i];
  }

  /** Saving the same edit twice gives the same table as saving it once. */
  lemma UpdateIdempotent(rows: seq<Transaction>, id: int, kind: Kind, category: string,
                         cents: int, description: string, dateText: string)
    requires Update(rows, id, kind, category, cents, description, dateText).Ok?
    ensures var once := Update(rows, id, kind, category, cents, description, dateText).value;
      Update(once, id, kind, category, cents, description, dateText) == Ok(once)
  {
    var once := Update(rows, id, kind, category, cents, description, dateText).value;
    var t := Entry(id, kind, category, cents, description, dateText).value;
    assert t.id == id;
    var twice := Update(once, id, kind, category, cents, description, dateText).value;
    forall i | 0 <= i < |once| ensures twice[i] == once[i] {
      assert once[i].id == id <==> rows[i].id == id;
    }
    assert twice == once;
  }

  /** With unique ids, an edit changes at most one row and never a row's id. */
  lemma UpdateChangesOneRow(rows: seq<Transaction>, id: int, kind: Kind, category: string,
                            cents: int, description: string, dateText: string)
    requires forall i, j :: 0 <= i < j < |rows| ==> rows[i].id != rows[j].id
    requires Update(rows, id, kind, category, cents, description, dateText).Ok?
    ensures var after := Update(rows, id, kind, category, cents, description, dateText).value;
      (forall i :: 0 <= i < |rows| ==> after[i].id == rows[i].id) &&
      (forall i, j :: 0 <= i < |rows| && 0 <= j < |rows| && i != j && after[i] != rows[i] ==> after[j] == rows[j])
  {
    var after := Update(rows, id, kind, category, cents, description, dateText).value;
    forall i, j | 0 <= i < |rows| && 0 <= j < |rows| && i != j && after[i] != rows[i] ensures after[j] == rows[j] {
      if i < j {
        assert rows[i].id != rows[j].id;
      } else {
        assert rows[j].id != rows[i].id;
      }
    }
  }

  /** A row just added shows up in every listing whose filter it passes. */
  lemma AddedIsListed(rows: seq<Transaction>, nextId: int, kind: Kind, category: string, cents: int,
                      description: string, dateText: string, f: Filter, out: seq<Transaction>)
    requires Add(rows, nextId, kind, category, cents, description, dateText).Ok?
    requires IsListing(out, Add(rows, nextId, kind, category, cents, description, dateText).value, f)
    requires Matches(f, Entry(nextId, kind, category, cents, description, dateText).value)
    ensures Entry(nextId, kind, category, cents, description, dateText).value in out
  {
    var after := Add(rows, nextId, kind, category, cents, description, dateText).value;
    var t := Entry(nextId, kind, category, cents, description, dateText).value;
    assert after[|rows|] == t;
    assert t in Select(after, f);
    assert t in multiset(out);
  }

  // ---------------------------------------------------------------- the table

  class TransactionTable {
    var rows: seq<Transaction>
    /** The AUTO_INCREMENT counter: the id the next insert receives. */
    var nextId: int

    /**
     * Ids are unique and below the counter, and every row passed the form
     * and the column limits.  Unique ids are what make an edit change at
     * most one row (SaveChanges).
     */
    predicate Valid()
      reads this
    {
      1 <= nextId &&
      (forall i, j :: 0 <= i < j < |rows| ==> rows[i].id != rows[j].id) &&
      (forall i :: 0 <= i < |rows| ==> 1 <= rows[i].id < nextId && Storable(rows[i]))
    }

    constructor ()
      ensures Valid() && rows == [] && nextId == 1
    {
      rows := [];
      nextId := 1;
    }

    /** `add_transaction`: on success the row is appended under the next id; a refused entry changes nothing. */
    method AddTransaction(kind: Kind, category: string, cents: int, description: string, dateText: string)
      returns (r: Result<int, EntryError>)
      requires Valid()
      modifies this
      ensures Valid()
      ensures var added := Add(old(rows), old(nextId), kind, category, cents, description, dateText);
        if added.Ok? then r == Ok(old(nextId)) && rows == added.value && nextId == old(nextId) + 1
        else r == Err(added.error) && rows == old(rows) && nextId == old(nextId)
    {
      var entry := Entry(nextId, kind, category, cents, description, dateText);
      if entry.Err? {
        return Err(entry.error);
      }
      rows := rows + [entry.value];
      r := Ok(nextId);
      nextId := nextId + 1;
    }

    /** `save_changes`: the row with that id takes the new values; a refused entry changes nothing. */
    method SaveChanges(id: int, kind: Kind, category: string, cents: int, description: string, dateText: string)
      returns (r: Result<(), EntryError>)
      requires Valid()
      modifies this
      ensures Valid()
      ensures nextId == old(nextId)
      ensures |rows| == |old(rows)| && forall i :: 0 <= i < |rows| ==> rows[i].id == old(rows)[i].id
      ensures forall i, j :: 0 <= i < |rows| && 0 <= j < |rows| && i != j && rows[i] != old(rows)[i] ==> rows[j] == old(rows)[j]
      ensures var updated := Update(old(rows), id, kind, category, cents, description, dateText);
        if updated.Ok? then r.Ok? && rows == updated.value
        else r == Err(updated.error) && rows == old(rows)
    {
      var entry := Entry(id, kind, category, cents, description, dateText);
      if entry.Err? {
        return Err(entry.error);
      }
      UpdateChangesOneRow(rows, id, kind, category, cents, description, dateText);
      rows := Replace(rows, id, entry.value);
      r := Ok(());
    }

    /**
     * `load_transactions`: build the statement, stop on a bad bound, else
     * run it: the rows its clauses select, latest date first.
     */
    method LoadTransactions(sel: Selector, dateFrom: string, dateTo: string)
      returns (r: Result<seq<Transaction>, FilterError>)
      ensures r.Err? <==> ParseFilter(sel, dateFrom, dateTo).Err?
      ensures r.Err? ==> r.error == ParseFilter(sel, dateFrom, dateTo).error
      ensures r.Ok? ==> IsListing(r.value, rows, ParseFilter(sel, dateFrom, dateTo).value)
    {
      var q := BuildTransactionQuery(sel, dateFrom, dateTo);
      if q.Err? {
        return Err(q.error);
      }
      var cs := ReadClauses(q.value.conditions, q.value.params).value;
      SelectWhereAgrees(rows, cs, ParseFilter(sel, dateFrom, dateTo).value);
      r := Ok(LatestFirst(SelectWhere(rows, cs)));
    }
  }
}
