/**
 One simulated sale and the generator that produces it. The generator's two
 random draws (which product, what quantity) and the clock reading are taken
 as parameters, so generation is a total, deterministic function of them.
 */
module Sales {
  import Catalogue

  /** The quantity draw is `randint(QuantityLow, QuantityHigh)`, whose upper
      bound is exclusive: quantities 1, 2 and 3. */
  const QuantityLow: int := 1
  const QuantityHigh: int := 4

  /** A sale record: product name, quantity, revenue in cents and the instant
      it was generated (an integer clock reading). */
  datatype Sale = Sale(product: string, quantity: int, revenue: int, timestamp: int)

  /** A sale the generator can produce: a catalogue product, a quantity in the
      draw's range, and revenue equal to unit price times quantity. */
  predicate WellFormed(s: Sale) {
    && Catalogue.IsProduct(s.product)
    && QuantityLow <= s.quantity < QuantityHigh
    && s.revenue == Catalogue.PriceOf(s.product) * s.quantity
  }

  /** `generate_sales_data`: `choice` is the index the product draw picked in
      the catalogue's key list, `draw` the quantity draw, `now` the clock. */
  function Generate(choice: nat, draw: int, now: int): (s: Sale)
    requires choice < |Catalogue.Entries|
    requires QuantityLow <= draw < QuantityHigh
    ensures Catalogue.IsProduct(s.product)
    ensures 1 <= s.quantity <= 3
    ensures s.revenue == Catalogue.PriceOf(s.product) * s.quantity
    ensures s.timestamp == now
    ensures s.product == Catalogue.Entries[choice].name && s.quantity == draw
    ensures WellFormed(s)
  {
    var name := Catalogue.Names()[choice];
    Sale(name, draw, Catalogue.PriceOf(name) * draw, now)
  }

  /** The generator reaches every well-formed sale: for each catalogue product
      and quantity 1..3 there are draws that produce exactly that sale. Together
      with the contract of Generate, its outputs are exactly the well-formed sales. */
  lemma {:induction false} GenerateReachesEveryWellFormedSale(s: Sale)
    requires WellFormed(s)
    ensures exists choice: nat, draw: int ::
      && choice < |Catalogue.Entries|
      && QuantityLow <= draw < QuantityHigh
      && Generate(choice, draw, s.timestamp) == s
  {
    var k :| 0 <= k < |Catalogue.Names()| && Catalogue.Names()[k] == s.product;
    assert Generate(k, s.quantity, s.timestamp) == s;
  }
}
