/** A worked example: three sales on Monday 1, Tuesday 2 and Wednesday 3 January
    2024, run through the filter, the summary cards and the insight picks. */
module Scenario {
  import opened Orders
  import opened Transactions
  import opened Calendar
  import opened Masks
  import opened Filtering
  import opened Metrics
  import opened Grouping
  import opened Aggregates
  import opened Insights

  const MondaySale := Row(19723, "CustomerA", "ProductX", "CatFood", 2, 100, 200)
  const TuesdaySale := Row(19724, "CustomerA", "ProductY", "CatFood", 1, 50, 50)
  const WednesdaySale := Row(19725, "CustomerB", "ProductX", "CatDrink", 3, 100, 300)
  const Sales: seq<Row> := [MondaySale, TuesdaySale, WednesdaySale]

  /** The prefixes the row-by-row folds step through. */
  lemma SalesPrefixes()
    ensures Sales[..|Sales| - 1] == [MondaySale, TuesdaySale]
    ensures [MondaySale, TuesdaySale][..1] == [MondaySale]
    ensures [MondaySale][..0] == []
    ensures forall r :: r in Sales <==> r == MondaySale || r == TuesdaySale || r == WednesdaySale
  {
  }

  /** The two customers and the two products of the sales. */
  lemma SalesNames()
    ensures Names(Sales, CustomerOf) == {"CustomerA", "CustomerB"} && |Names(Sales, CustomerOf)| == 2
    ensures Names(Sales, ProductOf) == {"ProductX", "ProductY"} && |Names(Sales, ProductOf)| == 2
  {
    SalesPrefixes();
    assert MondaySale in Sales && WednesdaySale in Sales && TuesdaySale in Sales;
    assert CustomerOf(MondaySale) in Names(Sales, CustomerOf) && CustomerOf(WednesdaySale) in Names(Sales, CustomerOf);
    assert ProductOf(MondaySale) in Names(Sales, ProductOf) && ProductOf(TuesdaySale) in Names(Sales, ProductOf);
    forall x | x in Names(Sales, CustomerOf) ensures x in {"CustomerA", "CustomerB"} {
      var r :| r in Sales && CustomerOf(r) == x;
    }
    forall x | x in Names(Sales, ProductOf) ensures x in {"ProductX", "ProductY"} {
      var r :| r in Sales && ProductOf(r) == x;
    }
    assert "CustomerA"[8] != "CustomerB"[8] && "ProductX"[7] != "ProductY"[7];
  }

  /** The full date range with both categories and no customer chosen keeps every sale. */
  lemma FullSelectionKeepsAll()
    ensures Apply(Sales, Selection([19723, 19725], ["CatFood", "CatDrink"], [])) == Sales
  {
    WhereAll(Sales, DateAndCategoryMask(19723, 19725, ["CatFood", "CatDrink"]));
  }

  /** Revenue 550 over 3 orders from 2 customers and 2 products. */
  lemma SalesSummary()
    ensures Summarize(Sales) == Summary(550, 3, 2, 550.0 / 3.0, 2)
  {
    SalesPrefixes();
    assert Sum([MondaySale], TotalOf) == 200;
    assert Sum([MondaySale, TuesdaySale], TotalOf) == 250;
    assert Revenue(Sales) == 550;
    SalesNames();
  }

  /** ProductX earns 500 of the 550 and ProductY 50. */
  lemma ProductTotals()
    ensures SumWhere(Sales, ProductOf, TotalOf, "ProductX") == 500
    ensures SumWhere(Sales, ProductOf, TotalOf, "ProductY") == 50
  {
    SalesPrefixes();
    assert SumWhere([MondaySale], ProductOf, TotalOf, "ProductX") == 200;
    assert SumWhere([MondaySale, TuesdaySale], ProductOf, TotalOf, "ProductX") == 200;
    assert SumWhere([MondaySale], ProductOf, TotalOf, "ProductY") == 0;
    assert SumWhere([MondaySale, TuesdaySale], ProductOf, TotalOf, "ProductY") == 50;
  }

  /** ProductX has the largest revenue, and no product ahead of it in name order ties it. */
  lemma ProductXLeads()
    ensures IsFirstMaxKey(Sales, ProductOf, TotalOf, "ProductX")
  {
    SalesPrefixes();
    ProductTotals();
    StrLessIrreflexive("ProductX");
    ProductYAfterProductX();
    assert MondaySale in Sales;
    forall x | x in Sales ensures ProductOf(x) == "ProductX" || ProductOf(x) == "ProductY" {
    }
  }

  /** "ProductX" sorts before "ProductY". */
  lemma ProductYAfterProductX()
    ensures StrLess("ProductX", "ProductY")
  {
    assert "ProductX" == "Product" + "X" && "ProductY" == "Product" + "Y";
    StrLessCommonPrefix("Product", "X", "Y");
  }

  /** The revenue leader shown in the insights is ProductX. */
  lemma SalesTopProduct()
    ensures TopProduct(Sales) == "ProductX"
  {
    ProductXLeads();
    FirstMaxKeyUnique(Sales, ProductOf, TotalOf, TopProduct(Sales), "ProductX");
  }

  /** CustomerB spends 300 and CustomerA 250. */
  lemma CustomerTotals()
    ensures SumWhere(Sales, CustomerOf, TotalOf, "CustomerA") == 250
    ensures SumWhere(Sales, CustomerOf, TotalOf, "CustomerB") == 300
  {
    SalesPrefixes();
    assert SumWhere([MondaySale], CustomerOf, TotalOf, "CustomerA") == 200;
    assert SumWhere([MondaySale, TuesdaySale], CustomerOf, TotalOf, "CustomerA") == 250;
    assert SumWhere([MondaySale], CustomerOf, TotalOf, "CustomerB") == 0;
    assert SumWhere([MondaySale, TuesdaySale], CustomerOf, TotalOf, "CustomerB") == 0;
  }

  /** The most loyal customer is CustomerB, the one with the largest spending. */
  lemma SalesLoyalCustomer()
    ensures LoyalCustomer(Sales) == "CustomerB"
  {
    SalesPrefixes();
    CustomerTotals();
    var c := LoyalCustomer(Sales);
    assert WednesdaySale in Sales;
    var r :| r in Sales && CustomerOf(r) == c;
  }

  /** All three sales fall in the month "2024-01". */
  lemma SalesMonths()
    ensures forall r :: r in Sales ==> MonthOf(r) == "2024-01"
  {
    SalesPrefixes();
    forall r | r in Sales
      ensures MonthOf(r) == "2024-01"
    {
      SaleMonth(r);
    }
  }

  /** Each sale's date falls in January 2024. */
  lemma SaleMonth(r: Row)
    requires r == MondaySale || r == TuesdaySale || r == WednesdaySale
    ensures MonthOf(r) == "2024-01"
  {
    if r == MondaySale {
      FirstOfJanuary2024();
      JanuaryLabel(19723);
    } else if r == TuesdaySale {
      SecondAndThirdOfJanuary2024();
      JanuaryLabel(19724);
    } else {
      SecondAndThirdOfJanuary2024();
      JanuaryLabel(19725);
    }
  }

  /** The busiest month is the only month present. */
  lemma SalesBusiestMonth()
    ensures BusiestMonth(Sales) == "2024-01"
  {
    SalesMonths();
    var m := BusiestMonth(Sales);
    var r :| r in Sales && MonthOf(r) == m;
  }
}
