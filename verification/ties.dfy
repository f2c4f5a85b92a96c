/**
 Ties for the top product. The grouping resolves equal revenue sums by taking
 the smallest product name, but with this catalogue no two products can reach
 equal sums in a history of at most `Capacity` generated sales: equal sums
 would need more units than such a history holds. So on every history the
 session can hold, the top product is the unique strict maximum and no
 tie-break rule is ever consulted.
 */
module Ties {
  import opened Sales
  import Catalogue
  import RollingBuffer
  import Aggregation

  /** If `b` has an inverse modulo `a` and `a` one modulo `b` (the certificates
      `x`, `k`, `y`, `l`), then `a * u == b * v` forces `v` to be a multiple of
      `a` and `u` a multiple of `b`, hence at least as large. */
  lemma {:induction false} CoprimeTie(a: int, b: int, x: int, k: int, y: int, l: int, u: int, v: int)
    requires a > 0 && b > 0
    requires b * x == 1 + a * k
    requires a * y == 1 + b * l
    requires 1 <= u && 1 <= v
    ensures a * u == b * v ==> v >= a && u >= b
  {
    if a * u == b * v {
      var m := u * x - k * v;
      calc {
        v;
        v * (b * x - a * k);
        (b * v) * x - a * k * v;
        (a * u) * x - a * k * v;
        a * m;
      }
      var n := v * y - l * u;
      calc {
        u;
        u * (a * y - b * l);
        (a * u) * y - b * l * u;
        (b * v) * y - b * l * u;
        b * n;
      }
      PositiveMultiple(a, m);
      PositiveMultiple(b, n);
    }
  }

  /** A positive multiple of a positive number is at least that number. */
  lemma {:induction false} PositiveMultiple(a: int, m: int)
    requires a > 0 && a * m >= 1
    ensures a * m >= a
  {
  }

  /** Two different catalogue prices never give equal amounts for unit counts
      that add up to at most 1500. Each pair of prices is first divided by
      their greatest common divisor; the smallest pair that could tie,
      Galaxy Tablet against Sonic Earbuds, needs 283 + 1275 units. */
  lemma {:induction false} DistinctPricesNeverTie(i: nat, j: nat, u: int, v: int)
    requires i < j < |Catalogue.Entries|
    requires 1 <= u && 1 <= v && u + v <= 1500
    ensures Catalogue.Entries[i].priceCents * u != Catalogue.Entries[j].priceCents * v
  {
    if i == 0 && j == 1 { CoprimeTie(149999, 79999, 107140, 57141, 22858, 42859, u, v); }
    else if i == 0 && j == 2 { CoprimeTie(149999, 67575, 40457, 18226, 49349, 109542, u, v); }
    else if i == 0 && j == 3 { CoprimeTie(149999, 29900, 71242, 14201, 15699, 78757, u, v); }
    else if i == 0 && j == 4 { CoprimeTie(149999, 39999, 68180, 18181, 21818, 81819, u, v); }
    else if i == 0 && j == 5 { CoprimeTie(149999, 14999, 33332, 3333, 11666, 116667, u, v); }
    else if i == 1 && j == 2 { CoprimeTie(79999, 67575, 24359, 20576, 46999, 55640, u, v); }
    else if i == 1 && j == 3 { CoprimeTie(79999, 29900, 6424, 2401, 27499, 73575, u, v); }
    else if i == 1 && j == 4 { CoprimeTie(79999, 39999, 79997, 39998, 1, 2, u, v); }
    else if i == 1 && j == 5 { CoprimeTie(79999, 14999, 73844, 13845, 1154, 6155, u, v); }
    else if i == 2 && j == 3 { CoprimeTie(2703, 1196, 1295, 573, 623, 1408, u, v); }
    else if i == 2 && j == 4 { CoprimeTie(22525, 13333, 20322, 12029, 1304, 2203, u, v); }
    else if i == 2 && j == 5 { CoprimeTie(1275, 283, 847, 188, 95, 428, u, v); }
    else if i == 3 && j == 4 { CoprimeTie(29900, 39999, 17699, 23677, 16322, 12201, u, v); }
    else if i == 3 && j == 5 { CoprimeTie(29900, 14999, 11899, 5969, 9030, 18001, u, v); }
    else { CoprimeTie(39999, 14999, 15998, 5999, 9000, 24001, u, v); }
  }

  /** Over generated sales, a product's revenue is its unit price times its units. */
  lemma {:induction false} ProductRevenueIsPriceTimesUnits(buf: seq<Sale>, p: string)
    requires forall s :: s in buf ==> WellFormed(s)
    requires Catalogue.IsProduct(p)
    ensures Aggregation.ProductRevenue(buf, p) == Catalogue.PriceOf(p) * Aggregation.ProductUnits(buf, p)
    decreases |buf|
  {
    if buf != [] {
      assert buf[0] in buf;
      assert WellFormed(buf[0]);
      assert forall s :: s in buf[1..] ==> s in buf;
      ProductRevenueIsPriceTimesUnits(buf[1..], p);
      var price := Catalogue.PriceOf(p);
      var here := if buf[0].product == p then buf[0].quantity else 0;
      var rest := Aggregation.ProductUnits(buf[1..], p);
      assert Aggregation.ProductUnits(buf, p) == here + rest;
      assert Aggregation.ProductRevenue(buf, p) == price * here + price * rest;
      Distribute(price, here, rest);
    }
  }

  lemma {:induction false} Distribute(a: int, b: int, c: int)
    ensures a * (b + c) == a * b + a * c
  {
  }

  /** Generated sales have positive quantities, so no product has negative units. */
  lemma {:induction false} ProductUnitsNonNegative(buf: seq<Sale>, p: string)
    requires forall s :: s in buf ==> WellFormed(s)
    ensures 0 <= Aggregation.ProductUnits(buf, p)
    decreases |buf|
  {
    if buf != [] {
      assert buf[0] in buf;
      assert WellFormed(buf[0]);
      assert forall s :: s in buf[1..] ==> s in buf;
      ProductUnitsNonNegative(buf[1..], p);
    }
  }

  /** Two different products together account for no more than all units. */
  lemma {:induction false} UnitsOfTwoProducts(buf: seq<Sale>, p: string, q: string)
    requires forall s :: s in buf ==> WellFormed(s)
    requires p != q
    ensures Aggregation.ProductUnits(buf, p) + Aggregation.ProductUnits(buf, q) <= Aggregation.TotalUnits(buf)
    decreases |buf|
  {
    if buf != [] {
      assert buf[0] in buf;
      assert WellFormed(buf[0]);
      assert forall s :: s in buf[1..] ==> s in buf;
      UnitsOfTwoProducts(buf[1..], p, q);
    }
  }

  /** A product that some row carries has at least one unit. */
  lemma {:induction false} PresentProductHasUnits(buf: seq<Sale>, p: string)
    requires forall s :: s in buf ==> WellFormed(s)
    requires p in Aggregation.ProductColumn(buf)
    ensures Aggregation.ProductUnits(buf, p) >= 1
    decreases |buf|
  {
    assert buf[0] in buf;
    assert WellFormed(buf[0]);
    assert forall s :: s in buf[1..] ==> s in buf;
    var col := Aggregation.ProductColumn(buf);
    var k :| 0 <= k < |col| && col[k] == p;
    ProductUnitsNonNegative(buf[1..], p);
    if buf[0].product != p {
      assert k > 0 && Aggregation.ProductColumn(buf[1..])[k - 1] == p;
      PresentProductHasUnits(buf[1..], p);
    }
  }

  /** On a history the session can hold, two different products never have
      equal summed revenue. */
  lemma {:induction false} NoTwoProductsTie(buf: seq<Sale>, p: string, q: string)
    requires RollingBuffer.Valid(buf)
    requires p in Aggregation.ProductColumn(buf) && q in Aggregation.ProductColumn(buf)
    requires p != q
    ensures Aggregation.ProductRevenue(buf, p) != Aggregation.ProductRevenue(buf, q)
  {
    var u, v := UnitsOfPair(buf, p, q);
    var i := PriceIndex(p);
    var j := PriceIndex(q);
    assert Aggregation.ProductRevenue(buf, p) == Catalogue.Entries[i].priceCents * u by {
      ProductRevenueIsPriceTimesUnits(buf, p);
    }
    assert Aggregation.ProductRevenue(buf, q) == Catalogue.Entries[j].priceCents * v by {
      ProductRevenueIsPriceTimesUnits(buf, q);
    }
    if i < j {
      DistinctPricesNeverTie(i, j, u, v);
    } else {
      DistinctPricesNeverTie(j, i, v, u);
    }
  }

  /** The catalogue line of a product. */
  lemma {:induction false} PriceIndex(p: string) returns (i: nat)
    requires Catalogue.IsProduct(p)
    ensures i < |Catalogue.Entries| && Catalogue.Entries[i].name == p
    ensures Catalogue.PriceOf(p) == Catalogue.Entries[i].priceCents
  {
    var ns := Catalogue.Names();
    i :| 0 <= i < |ns| && ns[i] == p;
  }

  /** Two different products of a history the session can hold each have at
      least one unit, and together at most 1500. */
  lemma {:induction false} UnitsOfPair(buf: seq<Sale>, p: string, q: string) returns (u: int, v: int)
    requires RollingBuffer.Valid(buf)
    requires p in Aggregation.ProductColumn(buf) && q in Aggregation.ProductColumn(buf)
    requires p != q
    ensures u == Aggregation.ProductUnits(buf, p) && v == Aggregation.ProductUnits(buf, q)
    ensures 1 <= u && 1 <= v && u + v <= 1500
    ensures Catalogue.IsProduct(p) && Catalogue.IsProduct(q)
  {
    var col := Aggregation.ProductColumn(buf);
    var a :| 0 <= a < |col| && col[a] == p;
    var b :| 0 <= b < |col| && col[b] == q;
    assert buf[a] in buf && buf[b] in buf;
    assert WellFormed(buf[a]) && WellFormed(buf[b]);
    u := Aggregation.ProductUnits(buf, p);
    v := Aggregation.ProductUnits(buf, q);
    PresentProductHasUnits(buf, p);
    PresentProductHasUnits(buf, q);
    UnitsOfTwoProducts(buf, p, q);
    Aggregation.UnitsBounds(buf);
  }

  /** On a history the session can hold, every other product earns strictly
      less than the top product, and any product merely reaching the maximum is
      the top product: the tie-break never decides. */
  lemma {:induction false} TopProductIsStrictMaximum(buf: seq<Sale>, p: string)
    requires RollingBuffer.Valid(buf)
    requires buf != []
    ensures forall q :: q in Aggregation.ProductColumn(buf) && q != Aggregation.TopProduct(buf) ==>
      Aggregation.ProductRevenue(buf, q) < Aggregation.ProductRevenue(buf, Aggregation.TopProduct(buf))
    ensures p in Aggregation.ProductColumn(buf) &&
      (forall q :: q in Aggregation.ProductColumn(buf) ==> Aggregation.ProductRevenue(buf, q) <= Aggregation.ProductRevenue(buf, p))
      ==> p == Aggregation.TopProduct(buf)
  {
    var top := Aggregation.TopProduct(buf);
    forall q | q in Aggregation.ProductColumn(buf) && q != top
      ensures Aggregation.ProductRevenue(buf, q) < Aggregation.ProductRevenue(buf, top)
    {
      NoTwoProductsTie(buf, q, top);
    }
  }
}
