/**
 The metrics recomputed from the history on every rerun: total units, total
 revenue and the top performing product (the product whose summed revenue is
 largest).
 */
module Aggregation {
  import opened Sales
  import Catalogue
  import Lex

  /** The value shown for the top product when the history is empty. */
  const NoData: string := "N/A"

  /** `df['quantity'].sum()`; the sum of an empty column is 0. With no negative
      quantity, every product's units are part of the total. */
  function TotalUnits(buf: seq<Sale>): (n: int)
    ensures buf == [] ==> n == 0
    ensures (forall i :: 0 <= i < |buf| ==> buf[i].quantity >= 0) ==>
      forall p :: 0 <= ProductUnits(buf, p) <= n
  {
    if buf == [] then 0
    else
      assert forall i :: 0 <= i < |buf| - 1 ==> buf[1..][i] == buf[i + 1];
      buf[0].quantity + TotalUnits(buf[1..])
  }

  /** `df['revenue'].sum()`; the sum of an empty column is 0, and a column of
      non-negative amounts sums to a non-negative total. */
  function TotalRevenue(buf: seq<Sale>): (t: int)
    ensures buf == [] ==> t == 0
    ensures (forall i :: 0 <= i < |buf| ==> buf[i].revenue >= 0) ==> t >= 0
  {
    if buf == [] then 0
    else
      assert forall i :: 0 <= i < |buf| - 1 ==> buf[1..][i] == buf[i + 1];
      buf[0].revenue + TotalRevenue(buf[1..])
  }

  /** The revenue of the rows whose product is `p`: one group of
      `groupby('product')['revenue'].sum()`. With no negative amount, a group's
      sum is part of the total revenue. */
  function ProductRevenue(buf: seq<Sale>, p: string): (r: int)
    ensures buf == [] ==> r == 0
    ensures (forall i :: 0 <= i < |buf| ==> buf[i].revenue >= 0) ==> 0 <= r <= TotalRevenue(buf)
  {
    if buf == [] then 0
    else
      assert forall i :: 0 <= i < |buf| - 1 ==> buf[1..][i] == buf[i + 1];
      (if buf[0].product == p then buf[0].revenue else 0) + ProductRevenue(buf[1..], p)
  }

  /** The units of the rows whose product is `p`. */
  function ProductUnits(buf: seq<Sale>, p: string): int {
    if buf == [] then 0
    else (if buf[0].product == p then buf[0].quantity else 0) + ProductUnits(buf[1..], p)
  }

  /** The `product` column, in row order: the keys the grouping sees. */
  function ProductColumn(buf: seq<Sale>): (ps: seq<string>)
    ensures |ps| == |buf|
    ensures forall i :: 0 <= i < |buf| ==> ps[i] == buf[i].product
  {
    if buf == [] then [] else [buf[0].product] + ProductColumn(buf[1..])
  }

  /** Sum of the catalogue unit price times quantity over generated rows. */
  function CatalogueValue(buf: seq<Sale>): int
    requires forall s :: s in buf ==> WellFormed(s)
  {
    if buf == [] then 0
    else
      assert buf[0] in buf;
      assert WellFormed(buf[0]);
      assert forall s :: s in buf[1..] ==> s in buf;
      Catalogue.PriceOf(buf[0].product) * buf[0].quantity + CatalogueValue(buf[1..])
  }

  /** The summed revenue of the groups named in `names`. */
  function GroupSum(buf: seq<Sale>, names: seq<string>): int {
    if names == [] then 0 else ProductRevenue(buf, names[0]) + GroupSum(buf, names[1..])
  }

  // ---------------------------------------------------------------- totals

  /** The totals and the group sums are additive over a split of the history. */
  lemma {:induction false} TotalsOfConcat(a: seq<Sale>, b: seq<Sale>, p: string)
    ensures TotalUnits(a + b) == TotalUnits(a) + TotalUnits(b)
    ensures TotalRevenue(a + b) == TotalRevenue(a) + TotalRevenue(b)
    ensures ProductRevenue(a + b, p) == ProductRevenue(a, p) + ProductRevenue(b, p)
    ensures ProductUnits(a + b, p) == ProductUnits(a, p) + ProductUnits(b, p)
    decreases |a|
  {
    if a == [] {
      assert a + b == b;
    } else {
      assert (a + b)[1..] == a[1..] + b;
      TotalsOfConcat(a[1..], b, p);
    }
  }

  /** Total revenue is the exact sum of catalogue price times quantity over
      the history (no drift: prices are integral cents). */
  lemma {:induction false} RevenueIsPriceTimesQuantity(buf: seq<Sale>)
    requires forall s :: s in buf ==> WellFormed(s)
    ensures TotalRevenue(buf) == CatalogueValue(buf)
    decreases |buf|
  {
    if buf != [] {
      assert buf[0] in buf;
      assert forall s :: s in buf[1..] ==> s in buf;
      RevenueIsPriceTimesQuantity(buf[1..]);
    }
  }

  /** Every generated sale has 1 to 3 units, so the unit total lies between the
      number of rows and three times that. */
  lemma {:induction false} UnitsBounds(buf: seq<Sale>)
    requires forall s :: s in buf ==> WellFormed(s)
    ensures |buf| <= TotalUnits(buf) <= 3 * |buf|
    decreases |buf|
  {
    if buf != [] {
      assert buf[0] in buf;
      assert forall s :: s in buf[1..] ==> s in buf;
      UnitsBounds(buf[1..]);
    }
  }

  /** A product that no row carries has no revenue. */
  lemma {:induction false} AbsentProductHasNoRevenue(buf: seq<Sale>, p: string)
    requires p !in ProductColumn(buf)
    ensures ProductRevenue(buf, p) == 0 && ProductUnits(buf, p) == 0
    decreases |buf|
  {
    if buf != [] {
      assert ProductColumn(buf)[0] == buf[0].product;
      assert forall k :: 0 <= k < |buf| - 1 ==> ProductColumn(buf[1..])[k] == ProductColumn(buf)[k + 1];
      AbsentProductHasNoRevenue(buf[1..], p);
    }
  }

  lemma {:induction false} GroupSumOfAbsent(s: Sale, names: seq<string>)
    requires s.product !in names
    ensures GroupSum([s], names) == 0
    decreases |names|
  {
    if names != [] {
      assert [s][1..] == [];
      assert names[0] != s.product;
      assert ProductRevenue([s], names[0]) == 0;
      assert s.product !in names[1..];
      GroupSumOfAbsent(s, names[1..]);
    }
  }

  lemma {:induction false} GroupSumOfOne(s: Sale, names: seq<string>)
    requires Catalogue.DistinctNames(names)
    requires s.product in names
    ensures GroupSum([s], names) == s.revenue
    decreases |names|
  {
    assert [s][1..] == [];
    if names[0] == s.product {
      assert s.product !in names[1..] by {
        forall k | 0 <= k < |names| - 1
          ensures names[1..][k] != s.product
        {
          assert names[1..][k] == names[k + 1];
        }
      }
      GroupSumOfAbsent(s, names[1..]);
      assert ProductRevenue([s], names[0]) == s.revenue;
    } else {
      assert ProductRevenue([s], names[0]) == 0;
      GroupSumOfOne(s, names[1..]);
    }
  }

  lemma {:induction false} GroupSumOfNoRows(names: seq<string>)
    ensures GroupSum([], names) == 0
    decreases |names|
  {
    if names != [] {
      GroupSumOfNoRows(names[1..]);
    }
  }

  lemma {:induction false} GroupSumOfConcat(a: seq<Sale>, b: seq<Sale>, names: seq<string>)
    ensures GroupSum(a + b, names) == GroupSum(a, names) + GroupSum(b, names)
    decreases |names|
  {
    if names != [] {
      TotalsOfConcat(a, b, names[0]);
      GroupSumOfConcat(a, b, names[1..]);
    }
  }

  /** Grouping partitions the revenue: over a history of catalogue products,
      the per-product revenues of the catalogue add up to the total revenue. */
  lemma {:induction false} RevenueIsSumOfGroups(buf: seq<Sale>)
    requires forall s :: s in buf ==> Catalogue.IsProduct(s.product)
    ensures GroupSum(buf, Catalogue.Names()) == TotalRevenue(buf)
    decreases |buf|
  {
    if buf != [] {
      var ns := Catalogue.Names();
      Catalogue.CatalogueWellFormed();
      assert buf[0] in buf;
      assert Catalogue.IsProduct(buf[0].product);
      assert buf == [buf[0]] + buf[1..];
      GroupSumOfConcat([buf[0]], buf[1..], ns);
      GroupSumOfOne(buf[0], ns);
      assert forall s :: s in buf[1..] ==> s in buf;
      RevenueIsSumOfGroups(buf[1..]);
    } else {
      GroupSumOfNoRows(Catalogue.Names());
    }
  }

  // ----------------------------------------------------------- top product

  /** `a` comes before `b` in the ranking `idxmax` resolves: more revenue, or the
      same revenue and a name that sorts no later. */
  predicate Precedes(buf: seq<Sale>, a: string, b: string) {
    || ProductRevenue(buf, a) > ProductRevenue(buf, b)
    || (ProductRevenue(buf, a) == ProductRevenue(buf, b) && Lex.LessEq(a, b))
  }

  /** The name among `names` with the largest group revenue, the smallest name
      among equals. */
  function Argmax(buf: seq<Sale>, names: seq<string>): (r: string)
    requires |names| > 0
    ensures r in names
    ensures forall n :: n in names ==> ProductRevenue(buf, n) <= ProductRevenue(buf, r)
    ensures forall n :: n in names && ProductRevenue(buf, n) == ProductRevenue(buf, r) ==> Lex.LessEq(r, n)
    decreases |names|
  {
    Lex.TotalOrder();
    if |names| == 1 then names[0]
    else
      var b := Argmax(buf, names[1..]);
      assert forall n :: n in names ==> n == names[0] || n in names[1..];
      if Precedes(buf, names[0], b) then names[0] else b
  }

  /** `top_product`: "N/A" on an empty history, otherwise the product with the
      largest summed revenue. Among products with equal sums the grouping's
      sorted key order and `idxmax`'s first-occurrence rule select the smallest
      name. */
  function TopProduct(buf: seq<Sale>): (r: string)
    ensures buf == [] ==> r == NoData
    ensures buf != [] ==> r in ProductColumn(buf)
    ensures forall p :: p in ProductColumn(buf) ==> ProductRevenue(buf, p) <= ProductRevenue(buf, r)
    ensures forall p :: p in ProductColumn(buf) && ProductRevenue(buf, p) == ProductRevenue(buf, r) ==> Lex.LessEq(r, p)
  {
    if buf == [] then NoData else Argmax(buf, ProductColumn(buf))
  }

  /** An independent description of the top product: a product present in the
      history whose revenue no other product exceeds, and the smallest name
      among those that reach it. */
  predicate IsTopProduct(buf: seq<Sale>, p: string) {
    && p in ProductColumn(buf)
    && (forall q :: q in ProductColumn(buf) ==> ProductRevenue(buf, q) <= ProductRevenue(buf, p))
    && (forall q :: q in ProductColumn(buf) && ProductRevenue(buf, q) == ProductRevenue(buf, p) ==> Lex.LessEq(p, q))
  }

  /** On a non-empty history the top product is the one and only product meeting
      that description. */
  lemma {:induction false} TopProductIsUnique(buf: seq<Sale>, p: string)
    requires buf != []
    ensures IsTopProduct(buf, p) <==> p == TopProduct(buf)
  {
    var r := TopProduct(buf);
    if IsTopProduct(buf, p) {
      assert ProductRevenue(buf, p) == ProductRevenue(buf, r);
      assert Lex.LessEq(p, r) && Lex.LessEq(r, p);
      Lex.Antisymmetric(p, r);
    }
  }
}
