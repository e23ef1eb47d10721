/**
 * The cleaning and enrichment step `clean_vendor_data`: on the query result,
 * held as a frame of rows, fill missing values with 0, trim VendorName and
 * Description, add the four KPI columns and turn infinite values into 0. It
 * works on the caller's frame in place.
 *
 * Numbers are exact; a float64 cell is told apart only as finite, +inf,
 * -inf or NaN, with IEEE 754-2008 semantics for those (section 7.2: 0/0,
 * inf-inf, 0*inf and inf/inf are invalid and give NaN; section 7.3: a
 * nonzero finite number divided by zero gives an infinity). Rounding is not
 * modelled. pandas uses NaN as its missing value, so SQL NULL arrives as NaN.
 */
module Enrichment {
  import opened Wrappers
  import opened Relational
  import opened VendorSummary

  // ---------------------------------------------------------------------
  // float64 cells

  datatype Num = Finite(value: real) | PosInf | NegInf | NaN

  /** Sign of a non-NaN value; zero counts as +0. */
  predicate Negative(n: Num)
  {
    n.NegInf? || (n.Finite? && n.value < 0.0)
  }

  function Infinity(negative: bool): Num
  {
    if negative then NegInf else PosInf
  }

  function Sub(a: Num, b: Num): Num
  {
    match (a, b)
    case (NaN, _) => NaN
    case (_, NaN) => NaN
    case (Finite(x), Finite(y)) => Finite(x - y)
    case (Finite(_), _) => Infinity(!Negative(b))
    case (_, Finite(_)) => a
    case _ => if a == b then NaN else a
  }

  function Mul(a: Num, b: Num): Num
  {
    match (a, b)
    case (NaN, _) => NaN
    case (_, NaN) => NaN
    case (Finite(x), Finite(y)) => Finite(x * y)
    case _ => if a == Finite(0.0) || b == Finite(0.0) then NaN else Infinity(Negative(a) != Negative(b))
  }

  function Div(a: Num, b: Num): Num
  {
    match (a, b)
    case (NaN, _) => NaN
    case (_, NaN) => NaN
    case (Finite(x), Finite(y)) =>
      if y != 0.0 then Finite(x / y)
      else if x == 0.0 then NaN
      else Infinity(x < 0.0)
    case (Finite(_), _) => Finite(0.0)
    case (_, Finite(y)) => Infinity(Negative(a) != (y < 0.0))
    case _ => NaN
  }

  // ---------------------------------------------------------------------
  // str.strip()

  /** The characters Python's `str.isspace` accepts, which `str.strip()`
      removes from both ends. */
  predicate IsSpace(c: char)
  {
    || c == ' ' || '\t' <= c <= '\r' || '\U{1C}' <= c <= '\U{1F}'
    || c == '\U{85}' || c == '\U{A0}' || c == '\U{1680}' || '\U{2000}' <= c <= '\U{200A}'
    || c == '\U{2028}' || c == '\U{2029}' || c == '\U{202F}' || c == '\U{205F}' || c == '\U{3000}'
  }

  /** The first index at or after `from` that does not hold whitespace,
      or |s| when there is none. */
  function SkipLeading(s: string, from: nat): (n: nat)
    requires from <= |s|
    ensures from <= n <= |s|
    ensures forall k :: from <= k < n ==> IsSpace(s[k])
    ensures n == |s| || !IsSpace(s[n])
    decreases |s| - from
  {
    if from < |s| && IsSpace(s[from]) then SkipLeading(s, from + 1) else from
  }

  /** The end of `s[lo..to]` once its trailing whitespace is cut. */
  function SkipTrailing(s: string, lo: nat, to: nat): (n: nat)
    requires lo <= to <= |s|
    ensures lo <= n <= to
    ensures forall k :: n <= k < to ==> IsSpace(s[k])
    ensures n == lo || !IsSpace(s[n - 1])
  {
    if lo < to && IsSpace(s[to - 1]) then SkipTrailing(s, lo, to - 1) else to
  }

  /** `str.strip()`: the middle of `s` left after cutting whitespace from
      both ends; only whitespace is cut, and the result neither starts nor
      ends with whitespace. */
  function Strip(s: string): (r: string)
    ensures r == [] || (!IsSpace(r[0]) && !IsSpace(r[|r| - 1]))
    ensures var i := SkipLeading(s, 0);
      && i + |r| <= |s| && r == s[i..i + |r|]
      && (forall k :: 0 <= k < i ==> IsSpace(s[k]))
      && (forall k :: i + |r| <= k < |s| ==> IsSpace(s[k]))
  {
    var i := SkipLeading(s, 0);
    var j := SkipTrailing(s, i, |s|);
    assert i < j ==> s[i..j][0] == s[i] && s[i..j][j - i - 1] == s[j - 1];
    s[i..j]
  }

  /** Stripping twice is stripping once. */
  lemma StripIdempotent(s: string)
    ensures Strip(Strip(s)) == Strip(s)
  {
    var t := Strip(s);
    assert SkipLeading(t, 0) == 0;
    assert SkipTrailing(t, 0, |t|) == |t|;
    assert t[0..|t|] == t;
  }

  // ---------------------------------------------------------------------
  // The frame

  /** A row of the frame: the fourteen query columns, then the four KPI
      columns. The KPI cells are written by the enrichment before anything
      reads them. */
  datatype FrameRow = FrameRow(
    vendorNumber: int, vendorName: string, brand: int, description: string,
    purchasePrice: real, volume: real, actualPrice: real,
    totalPurchaseQuantity: real, totalPurchaseDollars: real,
    totalSalesQuantity: Num, totalSalesDollars: Num, totalSalesPrice: Num,
    totalExciseTax: Num, freightCost: Num,
    grossProfit: Num, profitMargin: Num, stockTurnover: Num, salesToPurchaseRatio: Num)

  /** A nullable query column as pandas holds it: NULL becomes NaN. */
  function FromSql(v: Option<real>): Num
  {
    if v.None? then NaN else Finite(v.value)
  }

  /** A query result row as a frame row; the KPI columns do not exist yet
      and are held as NaN. */
  function ToFrame(r: VendorSummaryRow): FrameRow
  {
    FrameRow(
      r.vendorNumber, r.vendorName, r.brand, r.description,
      r.purchasePrice, r.volume, r.actualPrice,
      r.totalPurchaseQuantity, r.totalPurchaseDollars,
      FromSql(r.totalSalesQuantity), FromSql(r.totalSalesDollars), FromSql(r.totalSalesPrice),
      FromSql(r.totalExciseTax), FromSql(r.freightCost),
      NaN, NaN, NaN, NaN)
  }

  /** A row as the query delivers it: numbers or missing values, never an
      infinity. */
  predicate FromQuery(row: FrameRow)
  {
    && !row.totalSalesQuantity.PosInf? && !row.totalSalesQuantity.NegInf?
    && !row.totalSalesDollars.PosInf? && !row.totalSalesDollars.NegInf?
    && !row.totalSalesPrice.PosInf? && !row.totalSalesPrice.NegInf?
    && !row.totalExciseTax.PosInf? && !row.totalExciseTax.NegInf?
    && !row.freightCost.PosInf? && !row.freightCost.NegInf?
  }

  // ---------------------------------------------------------------------
  // The steps, one row at a time

  predicate Infinite(n: Num)
  {
    n.PosInf? || n.NegInf?
  }

  /** What `fillna(0)` does to one cell: a missing value becomes 0, any
      other value stays. */
  predicate FilledCell(before: Num, after: Num)
  {
    !after.NaN? && (before.NaN? ==> after == Finite(0.0)) && (!before.NaN? ==> after == before)
  }

  /** What `replace([np.inf, -np.inf], 0)` does to one cell: an infinity
      becomes 0, any other value (NaN included) stays. */
  predicate ZeroedCell(before: Num, after: Num)
  {
    !Infinite(after) && (Infinite(before) ==> after == Finite(0.0)) && (!Infinite(before) ==> after == before)
  }

  function FillNa(n: Num): (m: Num)
    ensures FilledCell(n, m)
  {
    if n.NaN? then Finite(0.0) else n
  }

  /** `df.fillna(0)` on the query columns: in each nullable column a
      missing value becomes 0 and every other value stays; no other column
      changes. */
  function FillNulls(row: FrameRow): (r: FrameRow)
    ensures FilledCell(row.totalSalesQuantity, r.totalSalesQuantity)
    ensures FilledCell(row.totalSalesDollars, r.totalSalesDollars)
    ensures FilledCell(row.totalSalesPrice, r.totalSalesPrice)
    ensures FilledCell(row.totalExciseTax, r.totalExciseTax)
    ensures FilledCell(row.freightCost, r.freightCost)
    ensures r.(totalSalesQuantity := row.totalSalesQuantity, totalSalesDollars := row.totalSalesDollars,
               totalSalesPrice := row.totalSalesPrice, totalExciseTax := row.totalExciseTax,
               freightCost := row.freightCost) == row
  {
    row.(totalSalesQuantity := FillNa(row.totalSalesQuantity),
         totalSalesDollars := FillNa(row.totalSalesDollars),
         totalSalesPrice := FillNa(row.totalSalesPrice),
         totalExciseTax := FillNa(row.totalExciseTax),
         freightCost := FillNa(row.freightCost))
  }

  /** `.str.strip()` on VendorName and Description: each name becomes its
      trimmed form, which trimming again would not change; no other column
      changes. */
  function StripNames(row: FrameRow): (r: FrameRow)
    ensures r.vendorName == Strip(row.vendorName) && r.description == Strip(row.description)
    ensures Strip(r.vendorName) == r.vendorName && Strip(r.description) == r.description
    ensures r.(vendorName := row.vendorName, description := row.description) == row
  {
    StripIdempotent(row.vendorName);
    StripIdempotent(row.description);
    row.(vendorName := Strip(row.vendorName), description := Strip(row.description))
  }

  /** GrossProfit = TotalSalesDollars - TotalPurchaseDollars: on a number it
      is the difference, on a missing value it is missing, on an infinity it
      is that infinity. Only GrossProfit changes. */
  function AddGrossProfit(row: FrameRow): (r: FrameRow)
    ensures row.totalSalesDollars.Finite? ==>
      r.grossProfit.Finite? && r.grossProfit.value + row.totalPurchaseDollars == row.totalSalesDollars.value
    ensures row.totalSalesDollars.NaN? ==> r.grossProfit.NaN?
    ensures Infinite(row.totalSalesDollars) ==> r.grossProfit == row.totalSalesDollars
    ensures r.(grossProfit := row.grossProfit) == row
  {
    row.(grossProfit := Sub(row.totalSalesDollars, Finite(row.totalPurchaseDollars)))
  }

  /** ProfitMargin = GrossProfit / TotalSalesDollars * 100: on numbers with
      nonzero sales, the percentage; on zero sales, NaN exactly when the
      gross profit is also zero, an infinity otherwise. Only ProfitMargin
      changes. */
  function AddProfitMargin(row: FrameRow): (r: FrameRow)
    ensures row.grossProfit.Finite? && row.totalSalesDollars.Finite? && row.totalSalesDollars.value != 0.0 ==>
      r.profitMargin == Finite(row.grossProfit.value / row.totalSalesDollars.value * 100.0)
    ensures row.grossProfit.Finite? && row.totalSalesDollars == Finite(0.0) ==>
      if row.grossProfit.value == 0.0 then r.profitMargin.NaN? else Infinite(r.profitMargin)
    ensures r.(profitMargin := row.profitMargin) == row
  {
    row.(profitMargin := Mul(Div(row.grossProfit, row.totalSalesDollars), Finite(100.0)))
  }

  /** StockTurnover = TotalSalesQuantity / TotalPurchaseQuantity: on a
      nonzero purchase quantity, the quotient; on a zero one, NaN exactly
      when nothing was sold, an infinity otherwise. Only StockTurnover
      changes. */
  function AddStockTurnover(row: FrameRow): (r: FrameRow)
    ensures row.totalSalesQuantity.Finite? && row.totalPurchaseQuantity != 0.0 ==>
      r.stockTurnover == Finite(row.totalSalesQuantity.value / row.totalPurchaseQuantity)
    ensures row.totalSalesQuantity.Finite? && row.totalPurchaseQuantity == 0.0 ==>
      if row.totalSalesQuantity.value == 0.0 then r.stockTurnover.NaN? else Infinite(r.stockTurnover)
    ensures r.(stockTurnover := row.stockTurnover) == row
  {
    row.(stockTurnover := Div(row.totalSalesQuantity, Finite(row.totalPurchaseQuantity)))
  }

  /** SalestoPurchaseRatio = TotalSalesDollars / TotalPurchaseDollars: on
      nonzero purchase dollars, the quotient; on zero, NaN exactly when
      nothing was sold, an infinity otherwise. Only SalestoPurchaseRatio
      changes. */
  function AddSalesToPurchaseRatio(row: FrameRow): (r: FrameRow)
    ensures row.totalSalesDollars.Finite? && row.totalPurchaseDollars != 0.0 ==>
      r.salesToPurchaseRatio == Finite(row.totalSalesDollars.value / row.totalPurchaseDollars)
    ensures row.totalSalesDollars.Finite? && row.totalPurchaseDollars == 0.0 ==>
      if row.totalSalesDollars.value == 0.0 then r.salesToPurchaseRatio.NaN? else Infinite(r.salesToPurchaseRatio)
    ensures r.(salesToPurchaseRatio := row.salesToPurchaseRatio) == row
  {
    row.(salesToPurchaseRatio := Div(row.totalSalesDollars, Finite(row.totalPurchaseDollars)))
  }

  function ReplaceInf(n: Num): (m: Num)
    ensures ZeroedCell(n, m)
  {
    if Infinite(n) then Finite(0.0) else n
  }

  /** `df.replace([np.inf, -np.inf], 0)`: in every float64 column an
      infinity becomes 0 and every other value (NaN included) stays; the
      other columns do not change. */
  function ReplaceInfinities(row: FrameRow): (r: FrameRow)
    ensures ZeroedCell(row.totalSalesQuantity, r.totalSalesQuantity)
    ensures ZeroedCell(row.totalSalesDollars, r.totalSalesDollars)
    ensures ZeroedCell(row.totalSalesPrice, r.totalSalesPrice)
    ensures ZeroedCell(row.totalExciseTax, r.totalExciseTax)
    ensures ZeroedCell(row.freightCost, r.freightCost)
    ensures ZeroedCell(row.grossProfit, r.grossProfit)
    ensures ZeroedCell(row.profitMargin, r.profitMargin)
    ensures ZeroedCell(row.stockTurnover, r.stockTurnover)
    ensures ZeroedCell(row.salesToPurchaseRatio, r.salesToPurchaseRatio)
    ensures r.vendorNumber == row.vendorNumber && r.vendorName == row.vendorName && r.brand == row.brand
    ensures r.description == row.description && r.purchasePrice == row.purchasePrice
    ensures r.volume == row.volume && r.actualPrice == row.actualPrice
    ensures r.totalPurchaseQuantity == row.totalPurchaseQuantity && r.totalPurchaseDollars == row.totalPurchaseDollars
  {
    row.(totalSalesQuantity := ReplaceInf(row.totalSalesQuantity),
         totalSalesDollars := ReplaceInf(row.totalSalesDollars),
         totalSalesPrice := ReplaceInf(row.totalSalesPrice),
         totalExciseTax := ReplaceInf(row.totalExciseTax),
         freightCost := ReplaceInf(row.freightCost),
         grossProfit := ReplaceInf(row.grossProfit),
         profitMargin := ReplaceInf(row.profitMargin),
         stockTurnover := ReplaceInf(row.stockTurnover),
         salesToPurchaseRatio := ReplaceInf(row.salesToPurchaseRatio))
  }

  /** Every step of `clean_vendor_data`, in order, on one row. After it no
      cell holds an infinity, the query's nullable columns hold numbers
      (missing ones became 0), the names carry no whitespace at either end,
      and the other query columns are untouched. */
  function CleanRow(row: FrameRow): (c: FrameRow)
    ensures c.totalSalesQuantity.Finite? && c.totalSalesDollars.Finite? && c.totalSalesPrice.Finite?
    ensures c.totalExciseTax.Finite? && c.freightCost.Finite?
    ensures !Infinite(c.grossProfit) && !Infinite(c.profitMargin)
    ensures !Infinite(c.stockTurnover) && !Infinite(c.salesToPurchaseRatio)
    ensures c.vendorName == Strip(row.vendorName) && c.description == Strip(row.description)
    ensures c.vendorName == [] || (!IsSpace(c.vendorName[0]) && !IsSpace(c.vendorName[|c.vendorName| - 1]))
    ensures c.description == [] || (!IsSpace(c.description[0]) && !IsSpace(c.description[|c.description| - 1]))
    ensures c.vendorNumber == row.vendorNumber && c.brand == row.brand
    ensures c.purchasePrice == row.purchasePrice && c.volume == row.volume && c.actualPrice == row.actualPrice
    ensures c.totalPurchaseQuantity == row.totalPurchaseQuantity
    ensures c.totalPurchaseDollars == row.totalPurchaseDollars
  {
    ReplaceInfinities(AddSalesToPurchaseRatio(AddStockTurnover(AddProfitMargin(AddGrossProfit(
      StripNames(FillNulls(row)))))))
  }

  // ---------------------------------------------------------------------
  // The in-place update

  /** Applies `step` to every row of the frame in place, as a whole-column
      pandas assignment does. */
  method ForEachRow(df: array<FrameRow>, step: FrameRow -> FrameRow)
    modifies df
    ensures forall i :: 0 <= i < df.Length ==> df[i] == step(old(df[i]))
  {
    for n := 0 to df.Length
      invariant forall i :: 0 <= i < n ==> df[i] == step(old(df[i]))
      invariant forall i :: n <= i < df.Length ==> df[i] == old(df[i])
    {
      df[n] := step(df[n]);
    }
  }

  /** `clean_vendor_data`: each row of the frame becomes its cleaned row;
      the frame keeps its rows' number and order. */
  method CleanVendorData(df: array<FrameRow>)
    modifies df
    ensures forall i :: 0 <= i < df.Length ==> df[i] == CleanRow(old(df[i]))
  {
    ForEachRow(df, FillNulls);
    ForEachRow(df, StripNames);
    ForEachRow(df, AddGrossProfit);
    ForEachRow(df, AddProfitMargin);
    ForEachRow(df, AddStockTurnover);
    ForEachRow(df, AddSalesToPurchaseRatio);
    ForEachRow(df, ReplaceInfinities);
  }

  // ---------------------------------------------------------------------
  // What cleaning guarantees

  /** A filled query cell's number: its value, or 0 where it was missing. */
  function Filled(n: Num): real
  {
    if n.Finite? then n.value else 0.0
  }

  /** numerator / denominator as the cleaned frame holds it: the quotient
      when the denominator is nonzero; 0 when only the denominator is zero
      (the infinity is replaced); NaN when both are zero. */
  function CleanRatio(numerator: real, denominator: real): Num
  {
    if denominator != 0.0 then Finite(numerator / denominator)
    else if numerator != 0.0 then Finite(0.0)
    else NaN
  }

  /** On a finite numerator and denominator, division followed by the
      replacement of infinities gives the cleaned ratio. */
  lemma ReplacedQuotient(numerator: real, denominator: real)
    ensures ReplaceInf(Div(Finite(numerator), Finite(denominator))) == CleanRatio(numerator, denominator)
    ensures ReplaceInf(Mul(Div(Finite(numerator), Finite(denominator)), Finite(100.0)))
      == if denominator != 0.0 then Finite(numerator / denominator * 100.0) else CleanRatio(numerator, denominator)
  {
  }

  /** On a row as the query delivers it, a missing value becomes 0, the
      others keep their value, and the KPIs are: GrossProfit exactly
      TotalSalesDollars - TotalPurchaseDollars; each ratio its quotient when
      the denominator is nonzero, 0 when only the denominator is zero, and
      NaN when both are. */
  lemma CleanRowKpis(row: FrameRow)
    requires FromQuery(row)
    ensures var c := CleanRow(row);
      var sales, purchases := Filled(row.totalSalesDollars), row.totalPurchaseDollars;
      && c.totalSalesQuantity == Finite(Filled(row.totalSalesQuantity))
      && c.totalSalesDollars == Finite(sales)
      && c.totalSalesPrice == Finite(Filled(row.totalSalesPrice))
      && c.totalExciseTax == Finite(Filled(row.totalExciseTax))
      && c.freightCost == Finite(Filled(row.freightCost))
      && c.grossProfit == Finite(sales - purchases)
      && c.profitMargin == (if sales != 0.0 then Finite((sales - purchases) / sales * 100.0)
                            else CleanRatio(sales - purchases, sales))
      && c.stockTurnover == CleanRatio(Filled(row.totalSalesQuantity), row.totalPurchaseQuantity)
      && c.salesToPurchaseRatio == CleanRatio(sales, purchases)
  {
    var sales, purchases := Filled(row.totalSalesDollars), row.totalPurchaseDollars;
    var quantity := Filled(row.totalSalesQuantity);
    var f := StripNames(FillNulls(row));
    assert f.totalSalesDollars == Finite(sales) && f.totalSalesQuantity == Finite(quantity);
    var g := AddGrossProfit(f);
    assert g.grossProfit == Finite(sales - purchases);
    var q := AddSalesToPurchaseRatio(AddStockTurnover(AddProfitMargin(g)));
    assert CleanRow(row) == ReplaceInfinities(q);
    ReplacedKpis(q, sales, purchases, quantity);
  }

  /** The last step on a row whose KPI columns hold the unreplaced
      quotients of finite sales, purchase dollars and sold quantity. */
  lemma ReplacedKpis(q: FrameRow, sales: real, purchases: real, quantity: real)
    requires q.totalPurchaseDollars == purchases
    requires q.grossProfit == Finite(sales - purchases)
    requires q.profitMargin == Mul(Div(Finite(sales - purchases), Finite(sales)), Finite(100.0))
    requires q.stockTurnover == Div(Finite(quantity), Finite(q.totalPurchaseQuantity))
    requires q.salesToPurchaseRatio == Div(Finite(sales), Finite(purchases))
    ensures var c := ReplaceInfinities(q);
      && c.grossProfit == Finite(sales - purchases)
      && c.profitMargin == (if sales != 0.0 then Finite((sales - purchases) / sales * 100.0)
                            else CleanRatio(sales - purchases, sales))
      && c.stockTurnover == CleanRatio(quantity, q.totalPurchaseQuantity)
      && c.salesToPurchaseRatio == CleanRatio(sales, purchases)
  {
    ReplacedQuotient(sales - purchases, sales);
    ReplacedQuotient(quantity, q.totalPurchaseQuantity);
    ReplacedQuotient(sales, purchases);
  }

  /** Cleaning a cleaned row of the query changes nothing. */
  lemma CleanRowIdempotent(row: FrameRow)
    requires FromQuery(row)
    ensures CleanRow(CleanRow(row)) == CleanRow(row)
  {
    var c := CleanRow(row);
    CleanRowKpis(row);
    assert FromQuery(c);
    CleanRowKpis(c);
    StripIdempotent(row.vendorName);
    StripIdempotent(row.description);
  }

  /** A filled nullable sum is the plain sum: an empty group's NULL becomes 0. */
  lemma FilledSum<T>(rows: seq<T>, f: T -> real)
    ensures Filled(FromSql(SumOrNull(rows, f))) == Sum(rows, f)
  {
  }

  /** Cleaning a query row: each nullable column holds its value, or 0
      where it was NULL, and GrossProfit is the filled sales dollars less
      the purchase dollars. */
  lemma CleanedQueryRow(r: VendorSummaryRow)
    ensures var c := CleanRow(ToFrame(r));
      && c.totalSalesQuantity == Finite(Filled(FromSql(r.totalSalesQuantity)))
      && c.totalSalesDollars == Finite(Filled(FromSql(r.totalSalesDollars)))
      && c.totalSalesPrice == Finite(Filled(FromSql(r.totalSalesPrice)))
      && c.totalExciseTax == Finite(Filled(FromSql(r.totalExciseTax)))
      && c.freightCost == Finite(Filled(FromSql(r.freightCost)))
      && c.grossProfit == Finite(Filled(FromSql(r.totalSalesDollars)) - r.totalPurchaseDollars)
  {
    CleanRowKpis(ToFrame(r));
  }

  /** Cleaning the expected row of a purchase group gives the sums over its
      matching sales and invoices, 0 where nothing matched. */
  lemma CleanedExpectedRow(
    k: PurchaseKey, priced: seq<PricedPurchase>, sales: seq<Sale>, invoices: seq<VendorInvoice>)
    ensures var c := CleanRow(ToFrame(ExpectedRow(k, priced, sales, invoices)));
      var sold := Where(sales, SalesKeyOf, (k.vendorNumber, k.brand));
      var billed := Where(invoices, InvoiceVendor, k.vendorNumber);
      && c.totalSalesQuantity == Finite(Sum(sold, SalesQuantity))
      && c.totalSalesDollars == Finite(Sum(sold, SalesDollars))
      && c.totalSalesPrice == Finite(Sum(sold, SalesPrice))
      && c.totalExciseTax == Finite(Sum(sold, ExciseTax))
      && c.freightCost == Finite(Sum(billed, Freight))
      && c.grossProfit == Finite(Sum(sold, SalesDollars) - Sum(Where(priced, PurchaseKeyOf, k), Dollars))
  {
    var sold := Where(sales, SalesKeyOf, (k.vendorNumber, k.brand));
    var billed := Where(invoices, InvoiceVendor, k.vendorNumber);
    CleanedQueryRow(ExpectedRow(k, priced, sales, invoices));
    FilledSum(sold, SalesQuantity);
    FilledSum(sold, SalesDollars);
    FilledSum(sold, SalesPrice);
    FilledSum(sold, ExciseTax);
    FilledSum(billed, Freight);
  }

  /** After the query and the cleaning, a row's sales totals and FreightCost
      are the sums over its matching sales and invoices, 0 where nothing
      matched, and its GrossProfit is its sales dollars less its purchase
      dollars. */
  lemma CleanedSummaryTotals(
    purchases: seq<Purchase>, prices: seq<PurchasePrice>, sales: seq<Sale>, invoices: seq<VendorInvoice>,
    r: VendorSummaryRow)
    requires r in CreateVendorSummary(purchases, prices, sales, invoices)
    ensures var c := CleanRow(ToFrame(r));
      var sold := Where(sales, SalesKeyOf, (r.vendorNumber, r.brand));
      var billed := Where(invoices, InvoiceVendor, r.vendorNumber);
      && c.totalSalesQuantity == Finite(Sum(sold, SalesQuantity))
      && c.totalSalesDollars == Finite(Sum(sold, SalesDollars))
      && c.totalSalesPrice == Finite(Sum(sold, SalesPrice))
      && c.totalExciseTax == Finite(Sum(sold, ExciseTax))
      && c.freightCost == Finite(Sum(billed, Freight))
      && c.grossProfit == Finite(Sum(sold, SalesDollars) - r.totalPurchaseDollars)
  {
    ResultRowsAreExpected(purchases, prices, sales, invoices, r);
    CleanedResultRow(RowKey(r), PricedPurchases(purchases, prices), sales, invoices, r);
  }

  /** CleanedExpectedRow, stated on a row that is its group's expected row. */
  lemma CleanedResultRow(
    k: PurchaseKey, priced: seq<PricedPurchase>, sales: seq<Sale>, invoices: seq<VendorInvoice>,
    r: VendorSummaryRow)
    requires k == RowKey(r) && r == ExpectedRow(k, priced, sales, invoices)
    ensures var c := CleanRow(ToFrame(r));
      var sold := Where(sales, SalesKeyOf, (r.vendorNumber, r.brand));
      var billed := Where(invoices, InvoiceVendor, r.vendorNumber);
      && c.totalSalesQuantity == Finite(Sum(sold, SalesQuantity))
      && c.totalSalesDollars == Finite(Sum(sold, SalesDollars))
      && c.totalSalesPrice == Finite(Sum(sold, SalesPrice))
      && c.totalExciseTax == Finite(Sum(sold, ExciseTax))
      && c.freightCost == Finite(Sum(billed, Freight))
      && c.grossProfit == Finite(Sum(sold, SalesDollars) - r.totalPurchaseDollars)
  {
    CleanedExpectedRow(k, priced, sales, invoices);
  }

  /** A row with no sales: after cleaning its sales totals are 0, its
      GrossProfit is minus its purchase dollars, and its StockTurnover is 0,
      unless it also bought nothing, when 0/0 stays NaN. */
  lemma CleanedUnsoldRow(row: FrameRow)
    requires FromQuery(row) && row.totalSalesDollars.NaN? && row.totalSalesQuantity.NaN?
    ensures var c := CleanRow(row);
      && c.totalSalesDollars == Finite(0.0) && c.totalSalesQuantity == Finite(0.0)
      && c.grossProfit == Finite(-row.totalPurchaseDollars)
      && c.stockTurnover == (if row.totalPurchaseQuantity != 0.0 then Finite(0.0) else NaN)
  {
    CleanRowKpis(row);
  }

  /** A purchase group with no matching sales row has NULL sales totals. */
  lemma UnsoldExpectedRow(
    k: PurchaseKey, priced: seq<PricedPurchase>, sales: seq<Sale>, invoices: seq<VendorInvoice>)
    requires Where(sales, SalesKeyOf, (k.vendorNumber, k.brand)) == []
    ensures ExpectedRow(k, priced, sales, invoices).totalSalesDollars.None?
    ensures ExpectedRow(k, priced, sales, invoices).totalSalesQuantity.None?
  {
  }

  /** A purchase group with no matching sales row: after cleaning its sales
      totals are 0, its GrossProfit is minus its purchase dollars, and its
      StockTurnover is 0, unless it also bought nothing, when 0/0 stays NaN. */
  lemma UnsoldGroup(
    purchases: seq<Purchase>, prices: seq<PurchasePrice>, sales: seq<Sale>, invoices: seq<VendorInvoice>,
    r: VendorSummaryRow)
    requires r in CreateVendorSummary(purchases, prices, sales, invoices)
    requires Where(sales, SalesKeyOf, (r.vendorNumber, r.brand)) == []
    ensures var c := CleanRow(ToFrame(r));
      && c.totalSalesDollars == Finite(0.0) && c.totalSalesQuantity == Finite(0.0)
      && c.grossProfit == Finite(-r.totalPurchaseDollars)
      && c.stockTurnover == (if r.totalPurchaseQuantity != 0.0 then Finite(0.0) else NaN)
  {
    ResultRowsAreExpected(purchases, prices, sales, invoices, r);
    UnsoldExpectedRow(RowKey(r), PricedPurchases(purchases, prices), sales, invoices);
    UnsoldResultRow(r);
  }

  /** CleanedUnsoldRow, stated on a query row whose sales totals are NULL. */
  lemma UnsoldResultRow(r: VendorSummaryRow)
    requires r.totalSalesDollars.None? && r.totalSalesQuantity.None?
    ensures var c := CleanRow(ToFrame(r));
      && c.totalSalesDollars == Finite(0.0) && c.totalSalesQuantity == Finite(0.0)
      && c.grossProfit == Finite(-r.totalPurchaseDollars)
      && c.stockTurnover == (if r.totalPurchaseQuantity != 0.0 then Finite(0.0) else NaN)
  {
    CleanedUnsoldRow(ToFrame(r));
  }

  /** The worked example's numbers, on its query row. */
  lemma WorkedExampleKpis(row: FrameRow)
    requires row.totalSalesDollars == Finite(1500.0) && row.totalSalesQuantity == Finite(80.0)
    requires row.totalPurchaseDollars == 1000.0 && row.totalPurchaseQuantity == 100.0
    requires row.freightCost == Finite(50.0) && FromQuery(row)
    ensures var c := CleanRow(row);
      && c.grossProfit == Finite(500.0) && c.stockTurnover == Finite(0.8)
      && c.salesToPurchaseRatio == Finite(1.5) && c.freightCost == Finite(50.0)
  {
    CleanRowKpis(row);
  }

  /** The worked example's query row, for its one purchase group. */
  lemma WorkedExampleRow(k: PurchaseKey, priced: seq<PricedPurchase>, sales: seq<Sale>, invoices: seq<VendorInvoice>)
    requires priced == [(Purchase(1, "Vendor", 1, "Brand", 10.0, 100.0, 1000.0), PurchasePrice(1, 750.0, 15.0))]
    requires sales == [Sale(1, 1, 1500.0, 15.0, 80.0, 1.0)] && invoices == [VendorInvoice(1, 50.0)]
    requires Where(priced, PurchaseKeyOf, k) != []
    ensures var row := ExpectedRow(k, priced, sales, invoices);
      && row.totalPurchaseDollars == 1000.0 && row.totalPurchaseQuantity == 100.0
      && row.totalSalesDollars == Some(1500.0) && row.totalSalesQuantity == Some(80.0)
      && row.freightCost == Some(50.0)
  {
    assert Where(priced, PurchaseKeyOf, k) == priced;
    assert k.vendorNumber == 1 && k.brand == 1;
    assert Where(sales, SalesKeyOf, (1, 1)) == sales;
    assert Where(invoices, InvoiceVendor, 1) == invoices;
  }

  /** A worked example: vendor 1 bought 100 units of brand 1 at 10 for
      1000 dollars, sold 80 of them for 1500 dollars, and paid 50 in freight.
      Its cleaned row has GrossProfit 500, StockTurnover 0.8,
      SalestoPurchaseRatio 1.5 and FreightCost 50. */
  lemma WorkedExample(r: VendorSummaryRow)
    requires r in CreateVendorSummary(
      [Purchase(1, "Vendor", 1, "Brand", 10.0, 100.0, 1000.0)], [PurchasePrice(1, 750.0, 15.0)],
      [Sale(1, 1, 1500.0, 15.0, 80.0, 1.0)], [VendorInvoice(1, 50.0)])
    ensures var c := CleanRow(ToFrame(r));
      && c.grossProfit == Finite(500.0) && c.stockTurnover == Finite(0.8)
      && c.salesToPurchaseRatio == Finite(1.5) && c.freightCost == Finite(50.0)
  {
    var purchases := [Purchase(1, "Vendor", 1, "Brand", 10.0, 100.0, 1000.0)];
    var prices := [PurchasePrice(1, 750.0, 15.0)];
    var sales := [Sale(1, 1, 1500.0, 15.0, 80.0, 1.0)];
    var invoices := [VendorInvoice(1, 50.0)];
    ResultRowsAreExpected(purchases, prices, sales, invoices, r);
    WorkedExamplePriced();
    WorkedExampleResult(PricedPurchases(purchases, prices), sales, invoices, r);
  }

  /** The worked example's one purchase is priced. */
  lemma WorkedExamplePriced()
    ensures PricedPurchases([Purchase(1, "Vendor", 1, "Brand", 10.0, 100.0, 1000.0)], [PurchasePrice(1, 750.0, 15.0)])
      == [(Purchase(1, "Vendor", 1, "Brand", 10.0, 100.0, 1000.0), PurchasePrice(1, 750.0, 15.0))]
  {
    var purchases := [Purchase(1, "Vendor", 1, "Brand", 10.0, 100.0, 1000.0)];
    var prices := [PurchasePrice(1, 750.0, 15.0)];
    assert (purchases[0], prices[0]) in PricedPurchases(purchases, prices);
  }

  /** The worked example's cleaned row, from its expected row. */
  lemma WorkedExampleResult(priced: seq<PricedPurchase>, sales: seq<Sale>, invoices: seq<VendorInvoice>, r: VendorSummaryRow)
    requires priced == [(Purchase(1, "Vendor", 1, "Brand", 10.0, 100.0, 1000.0), PurchasePrice(1, 750.0, 15.0))]
    requires sales == [Sale(1, 1, 1500.0, 15.0, 80.0, 1.0)] && invoices == [VendorInvoice(1, 50.0)]
    requires Where(priced, PurchaseKeyOf, RowKey(r)) != []
    requires r == ExpectedRow(RowKey(r), priced, sales, invoices)
    ensures var c := CleanRow(ToFrame(r));
      && c.grossProfit == Finite(500.0) && c.stockTurnover == Finite(0.8)
      && c.salesToPurchaseRatio == Finite(1.5) && c.freightCost == Finite(50.0)
  {
    WorkedExampleRow(RowKey(r), priced, sales, invoices);
    WorkedExampleKpis(ToFrame(r));
  }
}
