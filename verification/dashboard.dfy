/**
 One run of the dashboard script: generate a sale, add it to the history,
 recompute every metric from the whole history. The script runs again every
 couple of seconds; a session is the sequence of such runs starting from the
 empty history.
 */
module Dashboard {
  import opened Sales
  import Catalogue
  import RollingBuffer
  import Aggregation
  import RecentActivity
  import Ties

  /** The values one run displays: the three KPIs and the recent-activity table. */
  datatype Metrics = Metrics(totalUnits: int, totalRevenue: int, topProduct: string, recent: seq<Sale>)

  /** The outside inputs of one run: the two random draws and the clock reading. */
  datatype Draw = Draw(choice: nat, quantity: int, now: int)

  /** Draws the random generator can produce. */
  predicate Drawable(d: Draw) {
    d.choice < |Catalogue.Entries| && QuantityLow <= d.quantity < QuantityHigh
  }

  /** The history and the metrics after one run. */
  datatype Run = Run(history: seq<Sale>, metrics: Metrics)

  /** The calculations section: every metric recomputed from the history. */
  function Compute(buf: seq<Sale>): (m: Metrics)
    ensures buf == [] ==> m == Metrics(0, 0, Aggregation.NoData, [])
    ensures m.totalUnits == Aggregation.TotalUnits(buf)
    ensures m.totalRevenue == Aggregation.TotalRevenue(buf)
    ensures (forall s :: s in buf ==> Catalogue.IsProduct(s.product)) ==>
      m.totalRevenue == Aggregation.GroupSum(buf, Catalogue.Names())
    ensures buf != [] ==> m.topProduct in Aggregation.ProductColumn(buf)
    ensures forall p :: p in Aggregation.ProductColumn(buf) ==>
      Aggregation.ProductRevenue(buf, p) <= Aggregation.ProductRevenue(buf, m.topProduct)
    ensures multiset(m.recent) == multiset(buf)
    ensures RecentActivity.NewestFirst(m.recent)
  {
    var recent := RecentActivity.NewestFirstView(buf);
    assert buf == [] ==> recent == [] by {
      if buf == [] {
        assert |recent| == |multiset(recent)| == 0;
      }
    }
    assert (forall s :: s in buf ==> Catalogue.IsProduct(s.product)) ==>
      Aggregation.TotalRevenue(buf) == Aggregation.GroupSum(buf, Catalogue.Names()) by {
      if forall s :: s in buf ==> Catalogue.IsProduct(s.product) {
        Aggregation.RevenueIsSumOfGroups(buf);
      }
    }
    Metrics(Aggregation.TotalUnits(buf), Aggregation.TotalRevenue(buf), Aggregation.TopProduct(buf), recent)
  }

  /** One run of the script on the stored history `buf`. */
  function Step(buf: seq<Sale>, d: Draw): (r: Run)
    requires Drawable(d)
    ensures |r.history| <= RollingBuffer.Capacity
    ensures r.history == RollingBuffer.Append(buf, Generate(d.choice, d.quantity, d.now))
    ensures r.metrics == Compute(r.history)
    ensures RollingBuffer.Valid(buf) ==> RollingBuffer.Valid(r.history)
    ensures RollingBuffer.Valid(buf) ==> Catalogue.IsProduct(r.metrics.topProduct)
  {
    var s := Generate(d.choice, d.quantity, d.now);
    var h := RollingBuffer.Append(buf, s);
    var m := Compute(h);
    assert RollingBuffer.Valid(buf) ==> RollingBuffer.Valid(h) && Catalogue.IsProduct(m.topProduct) by {
      if RollingBuffer.Valid(buf) {
        RollingBuffer.AppendPreservesValid(buf, s);
        var col := Aggregation.ProductColumn(h);
        var k :| 0 <= k < |col| && col[k] == m.topProduct;
        assert h[k] in h;
        assert WellFormed(h[k]);
      }
    }
    Run(h, m)
  }

  /** Because the new sale is added before the metrics are computed, a run
      never shows "N/A": that branch is unreachable from the script. */
  lemma {:induction false} StepNeverShowsNoData(buf: seq<Sale>, d: Draw)
    requires RollingBuffer.Valid(buf)
    requires Drawable(d)
    ensures Step(buf, d).metrics.topProduct != Aggregation.NoData
    ensures Step(buf, d).metrics.totalUnits >= 1
  {
    var r := Step(buf, d);
    assert Catalogue.IsProduct(r.metrics.topProduct);
    NoDataIsNotAProduct();
    assert RollingBuffer.Valid(r.history);
    Aggregation.UnitsBounds(r.history);
  }

  /** The "N/A" placeholder cannot be mistaken for a catalogue product. */
  lemma {:induction false} NoDataIsNotAProduct()
    ensures !Catalogue.IsProduct(Aggregation.NoData)
  {
    var ns := Catalogue.Names();
    forall i | 0 <= i < |ns|
      ensures ns[i] != Aggregation.NoData
    {
      assert |ns[i]| > |Aggregation.NoData|;
    }
  }

  /** The sale one run generates from its draw. */
  function SaleOf(d: Draw): Sale
    requires Drawable(d)
  {
    Generate(d.choice, d.quantity, d.now)
  }

  /** The sales the draws generate, in order: the i-th sale is the one the i-th
      draw generates. */
  function Generated(draws: seq<Draw>): (ss: seq<Sale>)
    requires forall d :: d in draws ==> Drawable(d)
    ensures |ss| == |draws|
    ensures forall s :: s in ss ==> WellFormed(s)
    ensures forall i :: 0 <= i < |draws| ==> ss[i] == SaleOf(draws[i])
    decreases |draws|
  {
    if draws == [] then []
    else
      var init, last := draws[..|draws| - 1], draws[|draws| - 1];
      assert forall d :: d in init ==> d in draws;
      assert last in draws;
      assert Drawable(last);
      var g := SaleOf(last);
      var prev := Generated(init);
      var ss := prev + [g];
      assert forall i :: 0 <= i < |init| ==> ss[i] == prev[i] && init[i] == draws[i];
      assert ss[|init|] == g;
      assert forall s :: s in ss ==> s in prev || s == g;
      ss
  }

  /** The stored history after the runs `draws`, starting from the empty history. */
  function Session(draws: seq<Draw>): (h: seq<Sale>)
    requires forall d :: d in draws ==> Drawable(d)
    ensures |h| <= RollingBuffer.Capacity
    ensures draws == [] ==> h == []
    ensures draws != [] ==> draws[|draws| - 1] in draws && |h| > 0 && h[|h| - 1] == SaleOf(draws[|draws| - 1])
    decreases |draws|
  {
    if draws == [] then []
    else
      var init, last := draws[..|draws| - 1], draws[|draws| - 1];
      assert forall d :: d in init ==> d in draws;
      assert last in draws;
      assert Drawable(last);
      Step(Session(init), last).history
  }

  /** Every history a session reaches is the last `Capacity` generated sales
      in arrival order; it is valid and holds min(runs, Capacity) rows. */
  lemma {:induction false} SessionIsWindow(draws: seq<Draw>)
    requires forall d :: d in draws ==> Drawable(d)
    ensures Session(draws) == RollingBuffer.Tail(Generated(draws), RollingBuffer.Capacity)
    ensures RollingBuffer.Valid(Session(draws))
    ensures |Session(draws)| == RollingBuffer.Min(|draws|, RollingBuffer.Capacity)
    decreases |draws|
  {
    if draws != [] {
      var init, last := draws[..|draws| - 1], draws[|draws| - 1];
      assert forall d :: d in init ==> d in draws;
      assert last in draws;
      assert Drawable(last);
      SessionIsWindow(init);
      var g := Generate(last.choice, last.quantity, last.now);
      RollingBuffer.TailAppend(Generated(init), g, RollingBuffer.Capacity);
      RollingBuffer.TailElements(Generated(draws), RollingBuffer.Capacity);
    }
  }

  /** In every run of a session the top product is the unique product with the
      largest revenue: no other product in the history reaches its revenue. */
  lemma {:induction false} SessionTopProductIsUnique(draws: seq<Draw>, d: Draw)
    requires forall e :: e in draws ==> Drawable(e)
    requires Drawable(d)
    ensures var r := Step(Session(draws), d);
      forall q :: q in Aggregation.ProductColumn(r.history) && q != r.metrics.topProduct ==>
        Aggregation.ProductRevenue(r.history, q) < Aggregation.ProductRevenue(r.history, r.metrics.topProduct)
  {
    SessionIsWindow(draws);
    var r := Step(Session(draws), d);
    Ties.TopProductIsStrictMaximum(r.history, r.metrics.topProduct);
  }
}
