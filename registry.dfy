/**
 * The `categories` table (finance_manager.py `create_tables`,
 * `save_category`, `update_categories`).  Its `name` column is UNIQUE on
 * its own, so one name belongs to at most one type, and an insert of a
 * name that is already there fails whatever its type.
 */
module CategoryRegistry {
  import opened Results
  import opened Text
  import opened Records

  /** Why an insert was refused: an empty name (checked by the form), IntegrityError, or another MySQL error. */
  datatype CategoryError = EmptyName | AlreadyExists | DatabaseError

  predicate HasName(rows: seq<Category>, name: string) {
    exists i :: 0 <= i < |rows| && rows[i].name == name
  }

  /** What the table's constraints guarantee of its rows: names unique and no longer than the column. */
  predicate Stored(rows: seq<Category>) {
    (forall i, j :: 0 <= i < j < |rows| ==> rows[i].name != rows[j].name) &&
    (forall i :: 0 <= i < |rows| ==> |rows[i].name| <= NameWidth)
  }

  /**
   * `INSERT INTO categories (name, type)`: a name too long for VARCHAR(50)
   * is a data error (strict mode); a name already present, under either
   * type, violates UNIQUE; otherwise the row is appended.
   */
  function Insert(rows: seq<Category>, c: Category): (r: Result<seq<Category>, CategoryError>)
    ensures r == Err(DatabaseError) <==> |c.name| > NameWidth
    ensures r == Err(AlreadyExists) <==> |c.name| <= NameWidth && HasName(rows, c.name)
    ensures r.Ok? ==> r.value == rows + [c]
  {
    if |c.name| > NameWidth then Err(DatabaseError)
    else if HasName(rows, c.name) then Err(AlreadyExists)
    else Ok(rows + [c])
  }

  /** An insert keeps the table's constraints. */
  lemma InsertKeepsStored(rows: seq<Category>, c: Category)
    requires Stored(rows) && Insert(rows, c).Ok?
    ensures Stored(Insert(rows, c).value)
  {
    var r := rows + [c];
    forall i, j | 0 <= i < j < |r| ensures r[i].name != r[j].name {
      if j == |rows| {
        assert !HasName(rows, c.name);
        assert rows[i].name != c.name;
      }
    }
  }

  // ---------------------------------------------------------------- seeding

  /** The fourteen default pairs, in the order the seed loop inserts them. */
  function Defaults(): seq<Category> {
    [ Category("Salary", Income), Category("Freelance", Income),
      Category("Investments", Income), Category("Gifts", Income),
      Category("Food", Expense), Category("Transport", Expense),
      Category("Housing", Expense), Category("Utilities", Expense),
      Category("Entertainment", Expense), Category("Healthcare", Expense),
      Category("Education", Expense), Category("Shopping", Expense),
      Category("Other", Income), Category("Other", Expense) ]
  }

  lemma DefaultsFit()
    ensures forall i :: 0 <= i < |Defaults()| ==> |Defaults()[i].name| <= NameWidth
  {
  }

  /**
   * One pass of the seed loop: insert, and skip the default when the insert
   * is refused.  The loop swallows only the IntegrityError of a name already
   * there; a name too long for the column would instead end the whole loop,
   * which no default can cause (DefaultsFit), so the model skips it as well.
   */
  function SeedStep(rows: seq<Category>, c: Category): seq<Category> {
    match Insert(rows, c)
    case Ok(r) => r
    case Err(_) => rows
  }

  /** The seed loop over cs, in order. */
  function SeedAll(rows: seq<Category>, cs: seq<Category>): seq<Category> {
    if cs == [] then rows else SeedStep(SeedAll(rows, cs[..|cs| - 1]), cs[|cs| - 1])
  }

  lemma {:induction false} SeedAllStored(rows: seq<Category>, cs: seq<Category>)
    requires Stored(rows)
    ensures Stored(SeedAll(rows, cs))
  {
    if cs != [] {
      var before := SeedAll(rows, cs[..|cs| - 1]);
      SeedAllStored(rows, cs[..|cs| - 1]);
      if Insert(before, cs[|cs| - 1]).Ok? {
        InsertKeepsStored(before, cs[|cs| - 1]);
      }
    }
  }

  /** Seeding only appends: the rows that were there stay, in place. */
  lemma {:induction false} SeedAllExtends(rows: seq<Category>, cs: seq<Category>)
    ensures |rows| <= |SeedAll(rows, cs)| && SeedAll(rows, cs)[..|rows|] == rows
  {
    if cs != [] {
      SeedAllExtends(rows, cs[..|cs| - 1]);
    }
  }

  /** After seeding, every name of cs that fits the column is in the table. */
  lemma {:induction false} SeedAllCovers(rows: seq<Category>, cs: seq<Category>)
    ensures forall k :: 0 <= k < |cs| && |cs[k].name| <= NameWidth ==> HasName(SeedAll(rows, cs), cs[k].name)
  {
    if cs != [] {
      var init := cs[..|cs| - 1];
      var before := SeedAll(rows, init);
      var after := SeedAll(rows, cs);
      SeedAllCovers(rows, init);
      forall k | 0 <= k < |cs| && |cs[k].name| <= NameWidth ensures HasName(after, cs[k].name) {
        if k < |cs| - 1 {
          assert init[k] == cs[k];
          var i :| 0 <= i < |before| && before[i].name == cs[k].name;
          if Insert(before, cs[|cs| - 1]).Ok? {
            assert after[i] == before[i];
          }
        } else if Insert(before, cs[k]).Ok? {
          assert after[|before|] == cs[k];
        }
      }
    }
  }

  /** Seeding names that are all present already changes nothing. */
  lemma {:induction false} SeedAllPresent(rows: seq<Category>, cs: seq<Category>)
    requires forall k :: 0 <= k < |cs| ==> HasName(rows, cs[k].name)
    ensures SeedAll(rows, cs) == rows
  {
    if cs != [] {
      SeedAllPresent(rows, cs[..|cs| - 1]);
    }
  }

  /** Running the seed loop a second time inserts nothing. */
  lemma SeedIdempotent(rows: seq<Category>)
    ensures SeedAll(SeedAll(rows, Defaults()), Defaults()) == SeedAll(rows, Defaults())
  {
    DefaultsFit();
    SeedAllCovers(rows, Defaults());
    SeedAllPresent(SeedAll(rows, Defaults()), Defaults());
  }

  /**
   * Seeding an empty table stores thirteen rows: ('Other', 'income') takes
   * the name, so ('Other', 'expense') is refused and skipped.
   */
  lemma SeedFromEmpty()
    ensures SeedAll([], Defaults()) == Defaults()[..13]
  {
    var d := Defaults();
    DefaultsFit();
    SeedDistinct(d[..13]);
    assert d[..14][..13] == d[..13];
    assert d[..13][12].name == d[13].name;
    assert d[..14] == d;
  }

  /** Seeding an empty table with distinct names that fit stores all of them, in order. */
  lemma {:induction false} SeedDistinct(cs: seq<Category>)
    requires forall i, j :: 0 <= i < j < |cs| ==> cs[i].name != cs[j].name
    requires forall i :: 0 <= i < |cs| ==> |cs[i].name| <= NameWidth
    ensures SeedAll([], cs) == cs
  {
    if cs != [] {
      var init := cs[..|cs| - 1];
      SeedDistinct(init);
      assert !HasName(init, cs[|cs| - 1].name);
      assert init + [cs[|cs| - 1]] == cs;
    }
  }

  // ---------------------------------------------------------------- save_category

  /**
   * `save_category`: the name is stripped of surrounding white space and
   * refused when nothing is left; otherwise it is inserted with the chosen
   * type.
   */
  function AddCategory(rows: seq<Category>, input: string, kind: Kind): (r: Result<seq<Category>, CategoryError>)
    ensures r == Err(EmptyName) <==> AllSpace(input)
    ensures r == Err(AlreadyExists) <==> !AllSpace(input) && |Strip(input)| <= NameWidth && HasName(rows, Strip(input))
    ensures r == Err(DatabaseError) <==> !AllSpace(input) && |Strip(input)| > NameWidth
    ensures r.Ok? ==> r.value == rows + [Category(Strip(input), kind)] && Strip(input) != []
  {
    StripEmptyIff(input);
    var name := Strip(input);
    if name == [] then Err(EmptyName) else Insert(rows, Category(name, kind))
  }

  /** Once a name is added under one type, adding it again under either type is refused. */
  lemma NameTakenForBothKinds(rows: seq<Category>, input: string, kind: Kind, other: Kind)
    requires AddCategory(rows, input, kind).Ok?
    ensures AddCategory(AddCategory(rows, input, kind).value, input, other) == Err(AlreadyExists)
  {
    var after := AddCategory(rows, input, kind).value;
    assert after[|rows|].name == Strip(input);
  }

  // ---------------------------------------------------------------- update_categories

  /** `SELECT name FROM categories WHERE type = %s ORDER BY name`. */
  ghost predicate IsNameListing(names: seq<string>, rows: seq<Category>, kind: Kind) {
    StrictlyAscending(names) &&
    forall n :: n in names <==> exists i :: 0 <= i < |rows| && rows[i].kind == kind && rows[i].name == n
  }

  /** The listing is determined by the table: two listings of one type are the same list. */
  lemma ListingDetermined(a: seq<string>, b: seq<string>, rows: seq<Category>, kind: Kind)
    requires IsNameListing(a, rows, kind) && IsNameListing(b, rows, kind)
    ensures a == b
  {
    AscendingUnique(a, b);
  }

  /** Adding a category puts its name into its own type's listing and leaves the other type's listing as it was. */
  lemma AddedIsListed(rows: seq<Category>, input: string, kind: Kind, names: seq<string>, others: seq<string>, other: Kind)
    requires AddCategory(rows, input, kind).Ok? && other != kind
    requires IsNameListing(names, AddCategory(rows, input, kind).value, kind)
    requires IsNameListing(others, rows, other)
    ensures Strip(input) in names
    ensures IsNameListing(others, AddCategory(rows, input, kind).value, other)
  {
    var after := AddCategory(rows, input, kind).value;
    assert after[|rows|] == Category(Strip(input), kind);
    forall n ensures (n in others <==> exists i :: 0 <= i < |after| && after[i].kind == other && after[i].name == n) {
      if n in others {
        var i :| 0 <= i < |rows| && rows[i].kind == other && rows[i].name == n;
        assert after[i] == rows[i];
      }
      if exists i :: 0 <= i < |after| && after[i].kind == other && after[i].name == n {
        var i :| 0 <= i < |after| && after[i].kind == other && after[i].name == n;
        assert i < |rows| && rows[i] == after[i];
      }
    }
  }

  // ---------------------------------------------------------------- the table

  class CategoryTable {
    var rows: seq<Category>

    predicate Valid()
      reads this
    {
      Stored(rows)
    }

    constructor ()
      ensures Valid() && rows == []
    {
      rows := [];
    }

    /** The seed loop of `create_tables`: each default is inserted, and a refused one is skipped. */
    method Seed()
      requires Valid()
      modifies this
      ensures Valid()
      ensures rows == SeedAll(old(rows), Defaults())
    {
      var defaults := Defaults();
      DefaultsFit();
      var i := 0;
      while i < |defaults|
        invariant 0 <= i <= |defaults|
        invariant Valid()
        invariant rows == SeedAll(old(rows), defaults[..i])
      {
        assert defaults[..i + 1][..i] == defaults[..i];
        var inserted := Insert(rows, defaults[i]);
        if inserted.Ok? {
          InsertKeepsStored(rows, defaults[i]);
          rows := inserted.value;
        } else {
          // only the IntegrityError of a name already present can occur here
          assert inserted.error == AlreadyExists;
        }
        i := i + 1;
      }
      assert defaults[..i] == defaults;
    }

    /** `save_category`: on success the row is appended; on any error the table is unchanged. */
    method SaveCategory(input: string, kind: Kind) returns (r: Result<(), CategoryError>)
      requires Valid()
      modifies this
      ensures Valid()
      ensures AddCategory(old(rows), input, kind).Ok? ==> r.Ok? && rows == AddCategory(old(rows), input, kind).value
      ensures AddCategory(old(rows), input, kind).Err? ==> r == Err(AddCategory(old(rows), input, kind).error) && rows == old(rows)
    {
      var name := Strip(input);
      if name == [] {
        StripEmptyIff(input);
        return Err(EmptyName);
      }
      match Insert(rows, Category(name, kind))
      case Ok(after) =>
        InsertKeepsStored(rows, Category(name, kind));
        rows := after;
        r := Ok(());
      case Err(e) =>
        r := Err(e);
    }

    /**
     * `update_categories`: the names of one type in ascending order, and
     * the name the form then selects (the first one; None leaves the
     * current selection as it was).
     */
    method UpdateCategories(kind: Kind) returns (names: seq<string>, selected: Option<string>)
      requires Valid()
      ensures IsNameListing(names, rows, kind)
      ensures selected.Some? <==> names != []
      ensures selected.Some? ==> selected.value == names[0]
    {
      names := [];
      var i := 0;
      while i < |rows|
        invariant 0 <= i <= |rows|
        invariant StrictlyAscending(names)
        invariant forall n :: n in names <==> exists j :: 0 <= j < i && rows[j].kind == kind && rows[j].name == n
      {
        if rows[i].kind == kind {
          forall j | 0 <= j < i ensures rows[j].name != rows[i].name {
          }
          names := InsertAscending(rows[i].name, names);
        }
        i := i + 1;
      }
      selected := if names == [] then None else Some(names[0]);
    }
  }
}
