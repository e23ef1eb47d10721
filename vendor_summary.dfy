/**
 * The vendor summary query run by `create_vendor_summary`: purchases priced
 * through `purchase_prices`, summed per purchase group, left-joined with
 * per-(vendor, brand) sales totals and per-vendor freight totals, ordered by
 * purchase dollars, largest first.
 *
 * Base-table columns are taken to be non-null, so NULL (`None`) enters only
 * through the two left joins. Amounts and quantities are exact numbers.
 */
module VendorSummary {
  import opened Wrappers
  import opened Relational

  // ---------------------------------------------------------------------
  // Base tables: the columns the query reads

  datatype Purchase = Purchase(
    vendorNumber: int, vendorName: string, brand: int, description: string,
    purchasePrice: real, quantity: real, dollars: real)

  datatype PurchasePrice = PurchasePrice(brand: int, volume: real, price: real)

  datatype Sale = Sale(
    vendorNo: int, brand: int,
    salesDollars: real, salesPrice: real, salesQuantity: real, exciseTax: real)

  datatype VendorInvoice = VendorInvoice(vendorNumber: int, freight: real)

  // ---------------------------------------------------------------------
  // PurchaseSummary

  /** A row of `purchases p JOIN purchase_prices pp`. */
  type PricedPurchase = (Purchase, PurchasePrice)

  function PurchaseBrand(p: Purchase): int { p.brand }
  function PriceBrand(pp: PurchasePrice): int { pp.brand }
  function HasPositivePrice(j: PricedPurchase): bool { j.0.purchasePrice > 0.0 }

  /** `FROM purchases p JOIN purchase_prices pp ON p.Brand = pp.Brand
      WHERE p.PurchasePrice > 0`: a purchase contributes exactly when its
      price is positive and some price row has its brand. */
  function PricedPurchases(purchases: seq<Purchase>, prices: seq<PurchasePrice>): (priced: seq<PricedPurchase>)
    ensures forall j :: j in priced <==>
      j.0 in purchases && j.1 in prices && j.0.brand == j.1.brand && j.0.purchasePrice > 0.0
  {
    Where(InnerJoin(purchases, prices, PurchaseBrand, PriceBrand), HasPositivePrice, true)
  }

  /** Duplicates count: a purchase paired with a price row of its brand
      occurs once for each copy of the purchase row and each copy of the
      price row (a brand listed twice in purchase_prices doubles its
      purchases), provided its PurchasePrice is positive. */
  lemma PricedPurchasesCount(purchases: seq<Purchase>, prices: seq<PurchasePrice>, j: PricedPurchase)
    ensures multiset(PricedPurchases(purchases, prices))[j]
      == if j.0.brand == j.1.brand && j.0.purchasePrice > 0.0
         then multiset(purchases)[j.0] * multiset(prices)[j.1] else 0
  {
    InnerJoinCount(purchases, prices, PurchaseBrand, PriceBrand, j);
  }

  /** The seven GROUP BY columns of PurchaseSummary. */
  datatype PurchaseKey = PurchaseKey(
    vendorNumber: int, vendorName: string, brand: int, description: string,
    purchasePrice: real, volume: real, actualPrice: real)

  datatype PurchaseTotals = PurchaseTotals(totalPurchaseQuantity: real, totalPurchaseDollars: real)

  type PurchaseSummaryRow = Summary<PurchaseKey, PurchaseTotals>

  function PurchaseKeyOf(j: PricedPurchase): PurchaseKey
  {
    var (p, pp) := j;
    PurchaseKey(p.vendorNumber, p.vendorName, p.brand, p.description, p.purchasePrice, pp.volume, pp.price)
  }

  function Quantity(j: PricedPurchase): real { j.0.quantity }
  function Dollars(j: PricedPurchase): real { j.0.dollars }

  function PurchaseTotalsOf(group: seq<PricedPurchase>): PurchaseTotals
  {
    PurchaseTotals(Sum(group, Quantity), Sum(group, Dollars))
  }

  /** The PurchaseSummary CTE. Its keys are unique, and looking any key up
      finds the sums of Quantity and Dollars over the priced purchases with
      that key, or nothing when none has it. */
  function PurchaseSummary(purchases: seq<Purchase>, prices: seq<PurchasePrice>): (ps: seq<PurchaseSummaryRow>)
    ensures UniqueKeys(ps, SummaryKey)
    ensures forall k :: Lookup(ps, SummaryKey, k) == SummaryRowFor(PricedPurchases(purchases, prices), PurchaseKeyOf, PurchaseTotalsOf, k)
  {
    Aggregate(PricedPurchases(purchases, prices), PurchaseKeyOf, PurchaseTotalsOf)
  }

  function RowPurchaseQuantity(s: PurchaseSummaryRow): real { s.totals.totalPurchaseQuantity }
  function RowPurchaseDollars(s: PurchaseSummaryRow): real { s.totals.totalPurchaseDollars }

  /** Each priced purchase is counted in exactly one PurchaseSummary row:
      the rows' TotalPurchaseQuantity and TotalPurchaseDollars add up to the
      Quantity and Dollars of all priced purchases. */
  lemma PurchaseTotalsConserved(purchases: seq<Purchase>, prices: seq<PurchasePrice>)
    ensures Sum(PurchaseSummary(purchases, prices), RowPurchaseQuantity)
      == Sum(PricedPurchases(purchases, prices), Quantity)
    ensures Sum(PurchaseSummary(purchases, prices), RowPurchaseDollars)
      == Sum(PricedPurchases(purchases, prices), Dollars)
  {
    var priced := PricedPurchases(purchases, prices);
    AggregateSum(priced, PurchaseKeyOf, PurchaseTotalsOf, RowPurchaseQuantity, Quantity);
    AggregateSum(priced, PurchaseKeyOf, PurchaseTotalsOf, RowPurchaseDollars, Dollars);
  }

  // ---------------------------------------------------------------------
  // SalesSummary and freight_summary

  /** (VendorNo, Brand) */
  type SalesKey = (int, int)

  datatype SalesTotals = SalesTotals(
    totalSalesDollars: real, totalSalesPrice: real, totalSalesQuantity: real, totalExciseTax: real)

  function SalesKeyOf(s: Sale): SalesKey { (s.vendorNo, s.brand) }
  function SalesDollars(s: Sale): real { s.salesDollars }
  function SalesPrice(s: Sale): real { s.salesPrice }
  function SalesQuantity(s: Sale): real { s.salesQuantity }
  function ExciseTax(s: Sale): real { s.exciseTax }

  function SalesTotalsOf(group: seq<Sale>): SalesTotals
  {
    SalesTotals(Sum(group, SalesDollars), Sum(group, SalesPrice), Sum(group, SalesQuantity), Sum(group, ExciseTax))
  }

  /** The SalesSummary CTE: one row per (VendorNo, Brand) that occurs, with
      the four sums over exactly the sales of that vendor and brand. */
  function SalesSummary(sales: seq<Sale>): (ss: seq<Summary<SalesKey, SalesTotals>>)
    ensures UniqueKeys(ss, SummaryKey)
    ensures forall k :: Lookup(ss, SummaryKey, k) == SummaryRowFor(sales, SalesKeyOf, SalesTotalsOf, k)
  {
    Aggregate(sales, SalesKeyOf, SalesTotalsOf)
  }

  function InvoiceVendor(v: VendorInvoice): int { v.vendorNumber }
  function Freight(v: VendorInvoice): real { v.freight }
  function FreightCostOf(group: seq<VendorInvoice>): real { Sum(group, Freight) }

  /** The freight_summary CTE: one row per VendorNumber that occurs, with
      the sum of Freight over exactly that vendor's invoices. */
  function FreightSummary(invoices: seq<VendorInvoice>): (fs: seq<Summary<int, real>>)
    ensures UniqueKeys(fs, SummaryKey)
    ensures forall v :: Lookup(fs, SummaryKey, v) == SummaryRowFor(invoices, InvoiceVendor, FreightCostOf, v)
  {
    Aggregate(invoices, InvoiceVendor, FreightCostOf)
  }

  // ---------------------------------------------------------------------
  // The final SELECT

  /** One row of the query result; the five sales and freight columns are
      NULL when the left join found no match. */
  datatype VendorSummaryRow = VendorSummaryRow(
    vendorNumber: int, vendorName: string, brand: int, description: string,
    purchasePrice: real, volume: real, actualPrice: real,
    totalPurchaseQuantity: real, totalPurchaseDollars: real,
    totalSalesQuantity: Option<real>, totalSalesDollars: Option<real>,
    totalSalesPrice: Option<real>, totalExciseTax: Option<real>,
    freightCost: Option<real>)

  type WithSales = (PurchaseSummaryRow, Option<Summary<SalesKey, SalesTotals>>)
  type WithFreight = (WithSales, Option<Summary<int, real>>)

  /** `ON ps.VendorNumber = ss.VendorNo AND ps.Brand = ss.Brand` */
  function SalesJoinKey(ps: PurchaseSummaryRow): SalesKey { (ps.key.vendorNumber, ps.key.brand) }
  /** `ON ps.VendorNumber = fs.VendorNumber` */
  function FreightJoinKey(w: WithSales): int { w.0.key.vendorNumber }

  function SelectColumns(w: WithFreight): VendorSummaryRow
  {
    var (withSales, freight) := w;
    var (ps, ss) := withSales;
    VendorSummaryRow(
      ps.key.vendorNumber, ps.key.vendorName, ps.key.brand, ps.key.description,
      ps.key.purchasePrice, ps.key.volume, ps.key.actualPrice,
      ps.totals.totalPurchaseQuantity, ps.totals.totalPurchaseDollars,
      if ss.None? then None else Some(ss.value.totals.totalSalesQuantity),
      if ss.None? then None else Some(ss.value.totals.totalSalesDollars),
      if ss.None? then None else Some(ss.value.totals.totalSalesPrice),
      if ss.None? then None else Some(ss.value.totals.totalExciseTax),
      if freight.None? then None else Some(freight.value.totals))
  }

  function TotalPurchaseDollarsOf(r: VendorSummaryRow): real { r.totalPurchaseDollars }

  /** The seven purchase-group columns of a result row. */
  function RowKey(r: VendorSummaryRow): PurchaseKey
  {
    PurchaseKey(r.vendorNumber, r.vendorName, r.brand, r.description, r.purchasePrice, r.volume, r.actualPrice)
  }

  /** The two left joins keep one row per PurchaseSummary row, in order,
      each paired with its one sales summary and its one freight summary or
      NULL, since both summaries have unique keys. */
  lemma JoinedRows(ps: seq<PurchaseSummaryRow>, sales: seq<Sale>, invoices: seq<VendorInvoice>)
    ensures var withFreight := LeftJoin(LeftJoin(ps, SalesSummary(sales), SalesJoinKey, SummaryKey),
                                        FreightSummary(invoices), FreightJoinKey, SummaryKey);
      && |withFreight| == |ps|
      && forall i :: 0 <= i < |ps| ==>
           (withFreight[i] == ((ps[i], Lookup(SalesSummary(sales), SummaryKey, SalesJoinKey(ps[i]))),
                               Lookup(FreightSummary(invoices), SummaryKey, ps[i].key.vendorNumber)))
  {
    var withSales := LeftJoin(ps, SalesSummary(sales), SalesJoinKey, SummaryKey);
    LeftJoinOfUniqueKeys(ps, SalesSummary(sales), SalesJoinKey, SummaryKey);
    LeftJoinOfUniqueKeys(withSales, FreightSummary(invoices), FreightJoinKey, SummaryKey);
  }

  /** The query of `create_vendor_summary`: ordered by TotalPurchaseDollars,
      largest first, with one row per PurchaseSummary row, as the left joins
      against unique keys neither drop nor multiply rows. */
  function CreateVendorSummary(
    purchases: seq<Purchase>, prices: seq<PurchasePrice>, sales: seq<Sale>, invoices: seq<VendorInvoice>)
    : (result: seq<VendorSummaryRow>)
    ensures SortedDesc(result, TotalPurchaseDollarsOf)
    ensures |result| == |PurchaseSummary(purchases, prices)|
  {
    var ps := PurchaseSummary(purchases, prices);
    var withSales := LeftJoin(ps, SalesSummary(sales), SalesJoinKey, SummaryKey);
    var withFreight := LeftJoin(withSales, FreightSummary(invoices), FreightJoinKey, SummaryKey);
    JoinedRows(ps, sales, invoices);
    var selected := seq(|withFreight|, i requires 0 <= i < |withFreight| => SelectColumns(withFreight[i]));
    var result := SortDesc(selected, TotalPurchaseDollarsOf);
    assert |result| == |multiset(result)| == |multiset(selected)| == |selected|;
    result
  }

  // ---------------------------------------------------------------------
  // What the result must be, stated over the base tables

  /** The distinct purchase-group keys, one per key some priced purchase has. */
  function PurchaseGroupKeys(purchases: seq<Purchase>, prices: seq<PurchasePrice>): (ks: seq<PurchaseKey>)
    ensures forall i, j :: 0 <= i < j < |ks| ==> ks[i] != ks[j]
    ensures forall k :: k in ks <==> Where(PricedPurchases(purchases, prices), PurchaseKeyOf, k) != []
  {
    var priced := PricedPurchases(purchases, prices);
    var groups := GroupBy(priced, PurchaseKeyOf);
    forall k | k in KeysOf(groups) ensures Where(priced, PurchaseKeyOf, k) != [] {
      var i :| 0 <= i < |groups| && groups[i].key == k;
      assert groups[i] in groups;
    }
    forall k | Where(priced, PurchaseKeyOf, k) != [] ensures k in KeysOf(groups) {
      assert Where(priced, PurchaseKeyOf, k)[0] in priced;
    }
    KeysOf(groups)
  }

  /** The row owed for purchase group `k`: its key columns, the sums over
      its priced purchases, and the sums over the matching sales and
      invoices, or NULL where nothing matches. */
  function ExpectedRow(
    k: PurchaseKey, priced: seq<PricedPurchase>, sales: seq<Sale>, invoices: seq<VendorInvoice>)
    : VendorSummaryRow
  {
    var group := Where(priced, PurchaseKeyOf, k);
    var sold := Where(sales, SalesKeyOf, (k.vendorNumber, k.brand));
    var billed := Where(invoices, InvoiceVendor, k.vendorNumber);
    VendorSummaryRow(
      k.vendorNumber, k.vendorName, k.brand, k.description, k.purchasePrice, k.volume, k.actualPrice,
      Sum(group, Quantity), Sum(group, Dollars),
      SumOrNull(sold, SalesQuantity), SumOrNull(sold, SalesDollars),
      SumOrNull(sold, SalesPrice), SumOrNull(sold, ExciseTax),
      SumOrNull(billed, Freight))
  }

  function ExpectedSummary(
    purchases: seq<Purchase>, prices: seq<PurchasePrice>, sales: seq<Sale>, invoices: seq<VendorInvoice>)
    : seq<VendorSummaryRow>
  {
    var ks := PurchaseGroupKeys(purchases, prices);
    var priced := PricedPurchases(purchases, prices);
    seq(|ks|, i requires 0 <= i < |ks| => ExpectedRow(ks[i], priced, sales, invoices))
  }

  /** Before ORDER BY, the joined rows are exactly the expected rows, one per
      purchase group: neither left join drops or multiplies a row. */
  lemma {:induction false} JoinedRowsAreExpected(
    purchases: seq<Purchase>, prices: seq<PurchasePrice>, sales: seq<Sale>, invoices: seq<VendorInvoice>)
    ensures
      var ps := PurchaseSummary(purchases, prices);
      var withSales := LeftJoin(ps, SalesSummary(sales), SalesJoinKey, SummaryKey);
      var withFreight := LeftJoin(withSales, FreightSummary(invoices), FreightJoinKey, SummaryKey);
      seq(|withFreight|, i requires 0 <= i < |withFreight| => SelectColumns(withFreight[i]))
        == ExpectedSummary(purchases, prices, sales, invoices)
  {
    var priced := PricedPurchases(purchases, prices);
    var ps := PurchaseSummary(purchases, prices);
    var withSales := LeftJoin(ps, SalesSummary(sales), SalesJoinKey, SummaryKey);
    var withFreight := LeftJoin(withSales, FreightSummary(invoices), FreightJoinKey, SummaryKey);
    JoinedRows(ps, sales, invoices);
    PurchaseSummaryRows(purchases, prices);
    SelectedRowsAreExpected(PurchaseGroupKeys(purchases, prices), priced, sales, invoices, ps, withFreight);
  }

  /** The selected rows of the joins, one per purchase group key in order,
      are the groups' expected rows. */
  lemma SelectedRowsAreExpected(
    ks: seq<PurchaseKey>, priced: seq<PricedPurchase>, sales: seq<Sale>, invoices: seq<VendorInvoice>,
    ps: seq<PurchaseSummaryRow>, withFreight: seq<WithFreight>)
    requires |ps| == |ks| && |withFreight| == |ps|
    requires forall i :: 0 <= i < |ks| ==> ps[i] == Summary(ks[i], PurchaseTotalsOf(Where(priced, PurchaseKeyOf, ks[i])))
    requires forall i :: 0 <= i < |ps| ==>
               (withFreight[i] == ((ps[i], Lookup(SalesSummary(sales), SummaryKey, SalesJoinKey(ps[i]))),
                                   Lookup(FreightSummary(invoices), SummaryKey, ps[i].key.vendorNumber)))
    ensures seq(|withFreight|, i requires 0 <= i < |withFreight| => SelectColumns(withFreight[i]))
      == seq(|ks|, i requires 0 <= i < |ks| => ExpectedRow(ks[i], priced, sales, invoices))
  {
    forall i | 0 <= i < |ks|
      ensures SelectColumns(withFreight[i]) == ExpectedRow(ks[i], priced, sales, invoices)
    {
      SelectedRowIsExpected(ks[i], priced, sales, invoices, withFreight[i]);
    }
  }

  /** PurchaseSummary, row by row: its i-th row is the i-th purchase group's
      key with the totals over the priced purchases with that key. */
  lemma PurchaseSummaryRows(purchases: seq<Purchase>, prices: seq<PurchasePrice>)
    ensures var ps, ks := PurchaseSummary(purchases, prices), PurchaseGroupKeys(purchases, prices);
      && |ps| == |ks|
      && forall i :: 0 <= i < |ks| ==>
           (ps[i] == Summary(ks[i], PurchaseTotalsOf(Where(PricedPurchases(purchases, prices), PurchaseKeyOf, ks[i]))))
  {
    var priced := PricedPurchases(purchases, prices);
    var groups := GroupBy(priced, PurchaseKeyOf);
    var ps := PurchaseSummary(purchases, prices);
    var ks := PurchaseGroupKeys(purchases, prices);
    assert |ps| == |groups| == |ks|;
    forall i | 0 <= i < |ks|
      ensures ps[i] == Summary(ks[i], PurchaseTotalsOf(Where(priced, PurchaseKeyOf, ks[i])))
    {
      assert ps[i] == Summary(groups[i].key, PurchaseTotalsOf(groups[i].rows));
      assert groups[i] in groups;
    }
  }


  /** One joined row: purchase group `k`'s PurchaseSummary row with its
      sales and freight lookups selects to the row owed to `k`. */
  lemma SelectedRowIsExpected(
    k: PurchaseKey, priced: seq<PricedPurchase>, sales: seq<Sale>, invoices: seq<VendorInvoice>, w: WithFreight)
    requires w.0.0 == Summary(k, PurchaseTotalsOf(Where(priced, PurchaseKeyOf, k)))
    requires w.0.1 == Lookup(SalesSummary(sales), SummaryKey, (k.vendorNumber, k.brand))
    requires w.1 == Lookup(FreightSummary(invoices), SummaryKey, k.vendorNumber)
    ensures SelectColumns(w) == ExpectedRow(k, priced, sales, invoices)
  {
    assert w.0.1 == SummaryRowFor(sales, SalesKeyOf, SalesTotalsOf, (k.vendorNumber, k.brand));
    assert w.1 == SummaryRowFor(invoices, InvoiceVendor, FreightCostOf, k.vendorNumber);
  }

  /** The query result is ordered by TotalPurchaseDollars, largest first, and
      is a reordering of the expected rows: one row per purchase group, with
      its purchase, sales and freight sums (ties in any order). */
  lemma CreateVendorSummaryCorrect(
    purchases: seq<Purchase>, prices: seq<PurchasePrice>, sales: seq<Sale>, invoices: seq<VendorInvoice>)
    ensures SortedDesc(CreateVendorSummary(purchases, prices, sales, invoices), TotalPurchaseDollarsOf)
    ensures multiset(CreateVendorSummary(purchases, prices, sales, invoices))
      == multiset(ExpectedSummary(purchases, prices, sales, invoices))
  {
    JoinedRowsAreExpected(purchases, prices, sales, invoices);
  }

  /** Every expected row is owed to a purchase group that some priced
      purchase belongs to, and so has a positive PurchasePrice. */
  lemma ExpectedRowsArePriced(
    purchases: seq<Purchase>, prices: seq<PurchasePrice>, sales: seq<Sale>, invoices: seq<VendorInvoice>,
    r: VendorSummaryRow)
    requires r in ExpectedSummary(purchases, prices, sales, invoices)
    ensures Where(PricedPurchases(purchases, prices), PurchaseKeyOf, RowKey(r)) != []
    ensures r == ExpectedRow(RowKey(r), PricedPurchases(purchases, prices), sales, invoices)
    ensures r.purchasePrice > 0.0
  {
    var expected := ExpectedSummary(purchases, prices, sales, invoices);
    var ks := PurchaseGroupKeys(purchases, prices);
    var priced := PricedPurchases(purchases, prices);
    var i :| 0 <= i < |expected| && expected[i] == r;
    assert r == ExpectedRow(ks[i], priced, sales, invoices);
    assert RowKey(r) == ks[i];
    assert ks[i] in ks;
    var j := Where(priced, PurchaseKeyOf, ks[i])[0];
    assert j in priced;
  }

  /** Every result row is the expected row of a purchase group, and no
      purchase with a non-positive PurchasePrice shows up in the result. */
  lemma ResultRowsAreExpected(
    purchases: seq<Purchase>, prices: seq<PurchasePrice>, sales: seq<Sale>, invoices: seq<VendorInvoice>,
    r: VendorSummaryRow)
    requires r in CreateVendorSummary(purchases, prices, sales, invoices)
    ensures Where(PricedPurchases(purchases, prices), PurchaseKeyOf, RowKey(r)) != []
    ensures r == ExpectedRow(RowKey(r), PricedPurchases(purchases, prices), sales, invoices)
    ensures r.purchasePrice > 0.0
  {
    CreateVendorSummaryCorrect(purchases, prices, sales, invoices);
    assert r in multiset(CreateVendorSummary(purchases, prices, sales, invoices));
    ExpectedRowsArePriced(purchases, prices, sales, invoices, r);
  }
}
