/**
 The fixed product catalogue of the sales simulator: six products, each with a
 unit price. Prices are kept in integer cents; every listed price has exactly
 two decimals, so the conversion is exact.
 */
module Catalogue {

  /** One catalogue line: a product name and its unit price in cents. */
  datatype Entry = Entry(name: string, priceCents: nat)

  /** The catalogue, in the order its dictionary literal lists the products. */
  const Entries: seq<Entry> := [
    Entry("Quantum Laptop", 149999),
    Entry("Nebula Smartphone", 79999),
    Entry("Galaxy Tablet", 67575),
    Entry("Fusion Smartwatch", 29900),
    Entry("Vortex VR Headset", 39999),
    Entry("Sonic Earbuds", 14999)
  ]

  /** The product names, in catalogue order (the list a product is drawn from). */
  function Names(): (ns: seq<string>)
    ensures |ns| == |Entries|
    ensures forall i :: 0 <= i < |Entries| ==> ns[i] == Entries[i].name
  {
    seq(|Entries|, i requires 0 <= i < |Entries| => Entries[i].name)
  }

  /** True of exactly the names the catalogue lists. */
  predicate IsProduct(name: string) {
    name in Names()
  }

  /** No name is listed twice (the catalogue is a dictionary). */
  predicate DistinctNames(ns: seq<string>) {
    forall i, j :: 0 <= i < j < |ns| ==> ns[i] != ns[j]
  }

  /** The price of the first entry of `entries` that carries `name`. */
  function FindPrice(entries: seq<Entry>, name: string): (p: nat)
    requires exists k :: 0 <= k < |entries| && entries[k].name == name
    ensures exists k :: 0 <= k < |entries| && entries[k].name == name && entries[k].priceCents == p
  {
    if entries[0].name == name then entries[0].priceCents
    else
      assert exists k :: 0 <= k < |entries[1..]| && entries[1..][k].name == name by {
        var k :| 0 <= k < |entries| && entries[k].name == name;
        assert k != 0 && entries[1..][k - 1] == entries[k];
      }
      FindPrice(entries[1..], name)
  }

  /** The dictionary lookup `products[name]`; a name outside the catalogue
      would raise, so the lookup is only defined on catalogue names. */
  function PriceOf(name: string): (p: nat)
    requires IsProduct(name)
    ensures p > 0
    ensures forall i :: 0 <= i < |Entries| && Entries[i].name == name ==> p == Entries[i].priceCents
  {
    assert Names()[0] == Entries[0].name;
    var k :| 0 <= k < |Names()| && Names()[k] == name;
    assert Entries[k].name == name;
    CatalogueWellFormed();
    FindPrice(Entries, name)
  }

  /** The catalogue is non-empty, its names are distinct and every price is positive. */
  lemma {:induction false} CatalogueWellFormed()
    ensures |Entries| == 6
    ensures DistinctNames(Names())
    ensures forall i :: 0 <= i < |Entries| ==> Entries[i].priceCents > 0
  {
    var ns := Names();
    forall i, j | 0 <= i < j < |ns|
      ensures ns[i] != ns[j]
    {
      // Any two names already differ in their first character or in their length.
      assert ns[i][0] != ns[j][0] || |ns[i]| != |ns[j]|;
    }
  }
}
