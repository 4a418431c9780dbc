/**
 * Worked cases: three sample rows with the summary, the expense breakdown
 * and a one-day listing they give; dates the `%Y-%m-%d` check accepts and
 * refuses; and the category names after seeding.
 */
module Scenarios {
  import opened Results
  import opened Calendar
  import opened Text
  import opened Records
  import opened TransactionQuery
  import opened Reports
  import opened CategoryRegistry

  /** Salary 1000.00 on 2024-01-05, Food 45.50 on 2024-01-06, Food 10.00 on 2024-01-07. */
  function SampleRows(): seq<Transaction> {
    [ Transaction(1, Income, "Salary", 100000, "", Date(2024, 1, 5)),
      Transaction(2, Expense, "Food", 4550, "", Date(2024, 1, 6)),
      Transaction(3, Expense, "Food", 1000, "", Date(2024, 1, 7)) ]
  }

  lemma SelectKeep(t: Transaction, rest: seq<Transaction>, f: Filter)
    requires Matches(f, t)
    ensures Select([t] + rest, f) == [t] + Select(rest, f)
  {
    assert ([t] + rest)[0] == t;
    assert ([t] + rest)[1..] == rest;
  }

  lemma SelectDrop(t: Transaction, rest: seq<Transaction>, f: Filter)
    requires !Matches(f, t)
    ensures Select([t] + rest, f) == Select(rest, f)
  {
    assert ([t] + rest)[0] == t;
    assert ([t] + rest)[1..] == rest;
  }

  lemma ThreeRows(a: Transaction, b: Transaction, c: Transaction)
    ensures [a, b, c] == [a] + ([b] + [c]) && [c] + [] == [c]
  {
  }

  /** Of three rows, only the first passes. */
  lemma SelectFirstOfThree(a: Transaction, b: Transaction, c: Transaction, f: Filter)
    requires Matches(f, a) && !Matches(f, b) && !Matches(f, c)
    ensures Select([a, b, c], f) == [a]
  {
    ThreeRows(a, b, c);
    SelectDrop(c, [], f);
    SelectDrop(b, [c], f);
    SelectKeep(a, [b] + [c], f);
  }

  /** Of three rows, only the second passes. */
  lemma SelectSecondOfThree(a: Transaction, b: Transaction, c: Transaction, f: Filter)
    requires !Matches(f, a) && Matches(f, b) && !Matches(f, c)
    ensures Select([a, b, c], f) == [b]
  {
    ThreeRows(a, b, c);
    SelectDrop(c, [], f);
    SelectKeep(b, [c], f);
    SelectDrop(a, [b] + [c], f);
  }

  /** Of three rows, the last two pass. */
  lemma SelectLastTwoOfThree(a: Transaction, b: Transaction, c: Transaction, f: Filter)
    requires !Matches(f, a) && Matches(f, b) && Matches(f, c)
    ensures Select([a, b, c], f) == [b, c]
  {
    ThreeRows(a, b, c);
    SelectKeep(c, [], f);
    SelectKeep(b, [c], f);
    SelectDrop(a, [b] + [c], f);
  }

  lemma SumOfOne(a: Transaction)
    ensures SumCents([a]) == a.cents
  {
    assert [a][1..] == [];
  }

  lemma SumOfTwo(a: Transaction, b: Transaction)
    ensures SumCents([a, b]) == a.cents + b.cents
  {
    assert [a, b][1..] == [b];
    SumOfOne(b);
  }

  lemma SampleIncome()
    ensures Select(SampleRows(), PeriodFilter(Income, None, None)) == [SampleRows()[0]]
  {
    var rows := SampleRows();
    SelectFirstOfThree(rows[0], rows[1], rows[2], PeriodFilter(Income, None, None));
  }

  lemma SampleExpenses()
    ensures Select(SampleRows(), PeriodFilter(Expense, None, None)) == [SampleRows()[1], SampleRows()[2]]
  {
    var rows := SampleRows();
    SelectLastTwoOfThree(rows[0], rows[1], rows[2], PeriodFilter(Expense, None, None));
  }

  /** Income 1000.00, expenses 55.50, balance 944.50. */
  lemma SampleSummary()
    ensures SummaryReport(SampleRows(), None, None) == Summary(100000, 5550, 94450)
  {
    var rows := SampleRows();
    SampleIncome();
    SampleExpenses();
    SumOfOne(rows[0]);
    SumOfTwo(rows[1], rows[2]);
  }

  lemma {:induction false} WithCategoryAll(m: seq<Transaction>, c: string)
    requires forall t :: t in m ==> t.category == c
    ensures WithCategory(m, c) == m
  {
    if m != [] {
      assert m[0] in m;
      WithCategoryAll(m[1..], c);
      assert m == [m[0]] + m[1..];
    }
  }

  /** When every selected row has one category, the report is that category with the whole total. */
  lemma BreakdownOfOneCategory(out: seq<CategoryTotal>, rows: seq<Transaction>, f: Filter, c: string)
    requires IsBreakdown(out, rows, f)
    requires Select(rows, f) != [] && forall t :: t in Select(rows, f) ==> t.category == c
    ensures out == [CategoryTotal(c, SumCents(Select(rows, f)))]
  {
    var m := Select(rows, f);
    assert m[0] in m;
    assert c in Names(out);
    forall i | 0 <= i < |out| ensures out[i].category == c {
      assert Names(out)[i] in Names(out);
    }
    if |out| > 1 {
      assert false;
    }
    WithCategoryAll(m, c);
  }

  lemma SampleExpenseSum()
    ensures SumCents([SampleRows()[1], SampleRows()[2]]) == 5550
  {
    var rows := SampleRows();
    SumOfTwo(rows[1], rows[2]);
  }

  lemma SampleExpensesAreFood()
    ensures var m := Select(SampleRows(), PeriodFilter(Expense, None, None));
      m != [] && SumCents(m) == 5550 && forall t :: t in m ==> t.category == "Food"
  {
    SampleExpenses();
    SampleExpenseSum();
  }

  /** The expense report has the one row (Food, 55.50). */
  lemma SampleExpenseBreakdown(out: seq<CategoryTotal>)
    requires IsBreakdown(out, SampleRows(), PeriodFilter(Expense, None, None))
    ensures out == [CategoryTotal("Food", 5550)]
  {
    SampleExpensesAreFood();
    BreakdownOfOneCategory(out, SampleRows(), PeriodFilter(Expense, None, None), "Food");
  }

  /** A listing of a filter that keeps one row is that row. */
  lemma ListingOfOne(out: seq<Transaction>, rows: seq<Transaction>, f: Filter, t: Transaction)
    requires IsListing(out, rows, f) && Select(rows, f) == [t]
    ensures out == [t]
  {
    assert |out| == |multiset(out)| == 1;
    assert out[0] in multiset(out);
  }

  function SampleDay(): CalendarDate {
    Date(2024, 1, 6)
  }

  lemma SampleDayText()
    ensures ParseDate("2024-01-06") == Some(SampleDay())
  {
    assert IsoText(SampleDay()) == "2024-01-06";
    ParseIsoText(SampleDay());
  }

  /** Both bounds "2024-01-06" parse to that day. */
  lemma SampleOneDayParses()
    ensures ParseFilter(AllTypes, "2024-01-06", "2024-01-06") == Ok(Filter(AllTypes, Some(SampleDay()), Some(SampleDay())))
  {
    SampleDayText();
  }

  lemma SampleOneDaySelects()
    ensures Select(SampleRows(), Filter(AllTypes, Some(SampleDay()), Some(SampleDay()))) == [SampleRows()[1]]
  {
    var rows := SampleRows();
    SelectSecondOfThree(rows[0], rows[1], rows[2], Filter(AllTypes, Some(SampleDay()), Some(SampleDay())));
  }

  /** From = To = 2024-01-06 keeps exactly the second row. */
  lemma SampleOneDay(out: seq<Transaction>)
    requires IsListing(out, SampleRows(), Filter(AllTypes, Some(SampleDay()), Some(SampleDay())))
    ensures out == [SampleRows()[1]]
  {
    SampleOneDaySelects();
    ListingOfOne(out, SampleRows(), Filter(AllTypes, Some(SampleDay()), Some(SampleDay())), SampleRows()[1]);
  }

  /** Month 13, a non-date, 29 February of a common year and year 0 are refused. */
  lemma RefusedDates()
    ensures ParseDate("2024-13-40").None?
    ensures ParseDate("not-a-date").None?
    ensures ParseDate("2023-02-29").None?
    ensures ParseDate("0000-01-01").None?
  {
  }

  /** A one-digit month and day are accepted. */
  lemma ShortMonthAndDay()
    ensures ParseDate("2024-1-5") == Some(Date(2024, 1, 5))
  {
    assert "2024-1-5" == FourDigits(2024) + "-" + "1" + "-" + "5";
    assert "1" in MonthForms(1) && "5" in DayForms(5);
    ParseDateComplete("2024-1-5", Date(2024, 1, 5));
  }

  /** A day written as a space and one digit is accepted. */
  lemma SpacePaddedDay()
    ensures ParseDate("2024-01- 5") == Some(Date(2024, 1, 5))
  {
    assert "2024-01- 5" == FourDigits(2024) + "-" + "01" + "-" + " 5";
    assert "01" in MonthForms(1) && " 5" in DayForms(5);
    ParseDateComplete("2024-01- 5", Date(2024, 1, 5));
  }

  /** 29 February of a leap year is accepted. */
  lemma LeapDay()
    ensures ParseDate("2024-02-29") == Some(Date(2024, 2, 29))
  {
    var d: CalendarDate := Date(2024, 2, 29);
    assert IsoText(d) == "2024-02-29";
    ParseIsoText(d);
  }

  lemma FoodIsSeeded()
    ensures HasName(SeedAll([], Defaults()), "Food")
  {
    SeedFromEmpty();
    assert Defaults()[..13][4].name == "Food";
  }

  lemma TravelIsNotSeeded()
    ensures !HasName(SeedAll([], Defaults()), "Travel")
  {
    SeedFromEmpty();
  }

  lemma StripFood()
    ensures Strip("Food") == "Food"
  {
    assert TrimStart("Food") == "Food";
  }

  lemma TrimTravelStart()
    ensures TrimStart("  Travel ") == "Travel "
  {
    assert "  Travel " == [' ', ' '] + "Travel ";
    TwoSpacesThen("Travel ");
  }

  /** Two leading spaces are dropped and a text that starts with a non-space is kept. */
  lemma TwoSpacesThen(s: string)
    requires s != [] && !IsSpace(s[0])
    ensures TrimStart([' ', ' '] + s) == s
  {
    assert [' ', ' '] + s == [' '] + ([' '] + s);
    TrimOneSpace([' '] + s);
    TrimOneSpace(s);
  }

  lemma TrimOneSpace(s: string)
    ensures TrimStart([' '] + s) == TrimStart(s)
  {
    SpaceThenRest(s);
    TrimLeadingSpace([' '] + s);
  }

  lemma SpaceThenRest(s: string)
    ensures ([' '] + s)[0] == ' ' && ([' '] + s)[1..] == s && IsSpace(' ')
  {
  }

  lemma TrimLeadingSpace(s: string)
    requires s != [] && IsSpace(s[0])
    ensures TrimStart(s) == TrimStart(s[1..])
  {
  }

  lemma TrimTravelEnd()
    ensures TrimEnd("Travel ") == "Travel"
  {
    assert "Travel "[..6] == "Travel";
    assert !IsSpace('l');
  }

  lemma StripTravel()
    ensures Strip("  Travel ") == "Travel"
  {
    TrimTravelStart();
    TrimTravelEnd();
  }

  /** After seeding, Food is an expense category, so adding Food as income is refused; a new name is added stripped. */
  lemma FoodTakenAfterSeeding()
    ensures AddCategory(SeedAll([], Defaults()), "Food", Income) == Err(AlreadyExists)
    ensures AddCategory(SeedAll([], Defaults()), "  Travel ", Income) ==
      Ok(SeedAll([], Defaults()) + [Category("Travel", Income)])
  {
    FoodIsSeeded();
    TravelIsNotSeeded();
    StripFood();
    StripTravel();
    StripEmptyIff("Food");
    StripEmptyIff("  Travel ");
  }
}
