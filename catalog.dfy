/**
 The values of the retail inventory: product records, the messages the
 inventory reports on the console, and the specification of every inventory
 operation as a function on the ordered sequence of products. Lookups scan
 the sequence and act on the FIRST product whose id matches; ids are not
 required to be unique.
 */
module Catalog {

  datatype Option<T> = None | Some(value: T)

  /** One stocked item. `cost` and `sell` are stored but take part in no computation. */
  datatype Product = Product(name: string, id: string, quantity: int, ordersSold: int, cost: real, sell: real)

  /** One line of the inventory listing. */
  datatype Entry = Entry(name: string, id: string, quantity: int, ordersSold: int)

  /** What an operation reports on the console, in the order it reports it. */
  datatype Message =
    | Sold(amount: int, name: string)
    | InsufficientStock(name: string)
    | ProductNotFound
    | RunsOut(name: string, id: string, days: int)
    | AlreadyOut(name: string, id: string)
    | NoSalesHistory(name: string, id: string)

  /** A freshly registered product: nothing has been sold yet. */
  function NewProduct(name: string, id: string, quantity: int, cost: real, sell: real): (p: Product)
    ensures p.ordersSold == 0
    ensures p.name == name && p.id == id && p.quantity == quantity && p.cost == cost && p.sell == sell
  {
    Product(name, id, quantity, 0, cost, sell)
  }

  /** The position of the first product with the given id, if there is one. */
  function FirstIndex(ps: seq<Product>, id: string): (r: Option<nat>)
    ensures r.Some? ==> r.value < |ps| && ps[r.value].id == id
    ensures r.Some? ==> forall j :: 0 <= j < r.value ==> ps[j].id != id
    ensures r.None? <==> forall j :: 0 <= j < |ps| ==> ps[j].id != id
  {
    if ps == [] then None
    else if ps[0].id == id then Some(0)
    else match FirstIndex(ps[1..], id)
         case None => None
         case Some(k) => Some(k + 1)
  }

  /** FirstIndex depends on the ids only, not on any other field. */
  lemma FirstIndexSameIds(ps: seq<Product>, qs: seq<Product>, id: string)
    requires |ps| == |qs|
    requires forall j :: 0 <= j < |ps| ==> ps[j].id == qs[j].id
    ensures FirstIndex(ps, id) == FirstIndex(qs, id)
  {
  }

  /** Appending a product never changes an existing first match; it becomes the first match only if none existed. */
  lemma FirstIndexAppend(ps: seq<Product>, p: Product, id: string)
    ensures FirstIndex(ps + [p], id) ==
              if FirstIndex(ps, id).Some? then FirstIndex(ps, id)
              else if p.id == id then Some(|ps|)
              else None
  {
    var qs := ps + [p];
    assert forall j :: 0 <= j < |ps| ==> qs[j] == ps[j];
    assert qs[|ps|] == p;
  }

  /** Updating a position before an appended product is the same as updating first and appending after. */
  lemma UpdateBeforeAppend(ps: seq<Product>, p: Product, i: nat, q: Product)
    requires i < |ps|
    ensures (ps + [p])[i := q] == ps[i := q] + [p]
  {
  }

  // ---------------------------------------------------------------------
  // Adjusting a quantity

  /** The products after adding `delta` to the quantity of the first product with `id`. */
  function Restocked(ps: seq<Product>, id: string, delta: int): (r: seq<Product>)
    ensures |r| == |ps|
  {
    match FirstIndex(ps, id)
    case None => ps
    case Some(i) =>
      ps[i := ps[i].(quantity := ps[i].quantity + delta)]
  }

  /** Only the quantity of the first match changes; every other field and every other product stays. */
  lemma RestockFrame(ps: seq<Product>, id: string, delta: int)
    ensures FirstIndex(ps, id).None? ==> Restocked(ps, id, delta) == ps
    ensures FirstIndex(ps, id).Some? ==>
              var i, r := FirstIndex(ps, id).value, Restocked(ps, id, delta);
              && r[i].quantity == ps[i].quantity + delta
              && r[i] == ps[i].(quantity := r[i].quantity)
              && forall j :: 0 <= j < |ps| && j != i ==> r[j] == ps[j]
  {
  }

  /** Adjusting by `delta` and then by `-delta` restores the catalog. */
  lemma RestockInverse(ps: seq<Product>, id: string, delta: int)
    ensures Restocked(Restocked(ps, id, delta), id, -delta) == ps
  {
  }

  /** A product added after an existing match is shadowed: the adjustment still goes to the earlier one. */
  lemma RestockShadowsLaterDuplicate(ps: seq<Product>, p: Product, delta: int)
    requires FirstIndex(ps, p.id).Some?
    ensures Restocked(ps + [p], p.id, delta) == Restocked(ps, p.id, delta) + [p]
  {
    FirstIndexAppend(ps, p, p.id);
    var i := FirstIndex(ps, p.id).value;
    UpdateBeforeAppend(ps, p, i, ps[i].(quantity := ps[i].quantity + delta));
  }

  // ---------------------------------------------------------------------
  // Selling

  /** Whether a sale of `n` units of `id` goes through: the first match has at least `n` in stock. */
  predicate CanSell(ps: seq<Product>, id: string, n: int): (b: bool)
    ensures b ==> FirstIndex(ps, id).Some?
  {
    match FirstIndex(ps, id)
    case None => false
    case Some(i) => ps[i].quantity >= n
  }

  /** The products after selling `n` units of `id`. */
  function AfterSale(ps: seq<Product>, id: string, n: int): (r: seq<Product>)
    ensures |r| == |ps|
  {
    match FirstIndex(ps, id)
    case None => ps
    case Some(i) =>
      if ps[i].quantity >= n
      then ps[i := ps[i].(quantity := ps[i].quantity - n, ordersSold := ps[i].ordersSold + n)]
      else ps
  }

  /**
   What a sale reports. The not-found message follows the insufficient-stock
   message as well, because a refused sale leaves the "found" flag unset.
   */
  function SaleReport(ps: seq<Product>, id: string, n: int): (r: seq<Message>)
    ensures 1 <= |r| <= 2
    ensures r[|r| - 1] == ProductNotFound <==> !CanSell(ps, id, n)
  {
    match FirstIndex(ps, id)
    case None => [ProductNotFound]
    case Some(i) =>
      if ps[i].quantity >= n then [Sold(n, ps[i].name)]
      else [InsufficientStock(ps[i].name), ProductNotFound]
  }

  /** Unfolds a sale whose first match is known to be at position `i`; a proof step for the lemmas below. */
  lemma SaleAt(ps: seq<Product>, id: string, n: int, i: nat)
    requires FirstIndex(ps, id) == Some(i)
    ensures i < |ps|
    ensures AfterSale(ps, id, n) ==
              if ps[i].quantity >= n
              then ps[i := ps[i].(quantity := ps[i].quantity - n, ordersSold := ps[i].ordersSold + n)]
              else ps
    ensures SaleReport(ps, id, n) ==
              if ps[i].quantity >= n then [Sold(n, ps[i].name)]
              else [InsufficientStock(ps[i].name), ProductNotFound]
  {
  }

  /** A sale that goes through moves `n` units of the first match from stock to sold, and touches nothing else. */
  lemma SaleFrame(ps: seq<Product>, id: string, n: int)
    ensures !CanSell(ps, id, n) ==> AfterSale(ps, id, n) == ps
    ensures CanSell(ps, id, n) ==>
              var i, r := FirstIndex(ps, id).value, AfterSale(ps, id, n);
              && r[i].quantity == ps[i].quantity - n
              && r[i].ordersSold == ps[i].ordersSold + n
              && r[i] == ps[i].(quantity := r[i].quantity, ordersSold := r[i].ordersSold)
              && forall j :: 0 <= j < |ps| && j != i ==> r[j] == ps[j]
  {
  }

  /** The three outcomes of a sale, told apart by what is reported. */
  lemma SaleReportCases(ps: seq<Product>, id: string, n: int)
    ensures CanSell(ps, id, n) <==>
              FirstIndex(ps, id).Some? && SaleReport(ps, id, n) == [Sold(n, ps[FirstIndex(ps, id).value].name)]
    ensures FirstIndex(ps, id).None? <==> SaleReport(ps, id, n) == [ProductNotFound]
    ensures FirstIndex(ps, id).Some? && !CanSell(ps, id, n) <==>
              FirstIndex(ps, id).Some? &&
              SaleReport(ps, id, n) == [InsufficientStock(ps[FirstIndex(ps, id).value].name), ProductNotFound]
  {
  }

  /** A successful sale keeps quantity + ordersSold of every product, in particular of the one sold. */
  lemma SaleKeepsUnitsPerProduct(ps: seq<Product>, id: string, n: int)
    ensures forall j :: 0 <= j < |ps| ==>
              AfterSale(ps, id, n)[j].quantity + AfterSale(ps, id, n)[j].ordersSold == ps[j].quantity + ps[j].ordersSold
  {
  }

  /** For a non-negative amount, no product's ordersSold decreases. */
  lemma SaleOrdersSoldMonotone(ps: seq<Product>, id: string, n: int)
    requires n >= 0
    ensures forall j :: 0 <= j < |ps| ==> AfterSale(ps, id, n)[j].ordersSold >= ps[j].ordersSold
  {
  }

  /** The amount is not checked: selling a negative amount lowers ordersSold and raises the stock. */
  lemma NegativeSaleLowersOrdersSold()
    ensures var ps := [NewProduct("Widget", "A1", 5, 1.0, 2.0)];
            AfterSale(ps, "A1", -3) == [Product("Widget", "A1", 8, -3, 1.0, 2.0)]
  {
  }

  /**
   Only the first match is considered: once an id is present, a product added
   later with the same id is never sold from, and a refused sale stays refused
   even when that later product has enough stock.
   */
  lemma SaleShadowsLaterDuplicate(ps: seq<Product>, p: Product, n: int)
    requires FirstIndex(ps, p.id).Some?
    ensures AfterSale(ps + [p], p.id, n) == AfterSale(ps, p.id, n) + [p]
    ensures SaleReport(ps + [p], p.id, n) == SaleReport(ps, p.id, n)
  {
    var i := FirstIndex(ps, p.id).value;
    FirstIndexAppend(ps, p, p.id);
    SaleAt(ps, p.id, n, i);
    SaleAt(ps + [p], p.id, n, i);
    UpdateBeforeAppend(ps, p, i, ps[i].(quantity := ps[i].quantity - n, ordersSold := ps[i].ordersSold + n));
  }

  // ---------------------------------------------------------------------
  // Stock on hand

  /** Every product has a non-negative quantity. */
  predicate NonNegativeStock(ps: seq<Product>)
  {
    forall j :: 0 <= j < |ps| ==> ps[j].quantity >= 0
  }

  /** A sale can never drive a quantity below zero, whatever the amount requested. */
  lemma SalePreservesNonNegativeStock(ps: seq<Product>, id: string, n: int)
    requires NonNegativeStock(ps)
    ensures NonNegativeStock(AfterSale(ps, id, n))
  {
  }

  /** An adjustment has no floor: a negative delta can drive a quantity below zero. */
  lemma RestockCanGoNegative()
    ensures var ps := [NewProduct("Widget", "A1", 5, 1.0, 2.0)];
            NonNegativeStock(ps) && !NonNegativeStock(Restocked(ps, "A1", -7))
  {
    var ps := [NewProduct("Widget", "A1", 5, 1.0, 2.0)];
    assert FirstIndex(ps, "A1") == Some(0);
    assert Restocked(ps, "A1", -7)[0].quantity == -2;
  }

  /** All units ever taken into the catalog: what is on hand plus what has been sold. */
  function Units(ps: seq<Product>): (r: int)
  {
    if ps == [] then 0 else ps[0].quantity + ps[0].ordersSold + Units(ps[1..])
  }

  lemma {:induction false} UnitsUpdate(ps: seq<Product>, i: nat, p: Product)
    requires i < |ps|
    ensures Units(ps[i := p]) == Units(ps) - (ps[i].quantity + ps[i].ordersSold) + (p.quantity + p.ordersSold)
  {
    if i > 0 {
      assert ps[i := p][1..] == ps[1..][i - 1 := p];
      UnitsUpdate(ps[1..], i - 1, p);
    }
  }

  /** Selling moves units from stock to sold, so the catalog's total number of units is unchanged. */
  lemma SaleConservesUnits(ps: seq<Product>, id: string, n: int)
    ensures Units(AfterSale(ps, id, n)) == Units(ps)
  {
    match FirstIndex(ps, id)
    case None =>
    case Some(i) =>
      if ps[i].quantity >= n {
        UnitsUpdate(ps, i, ps[i].(quantity := ps[i].quantity - n, ordersSold := ps[i].ordersSold + n));
      }
  }

  /** An adjustment changes the catalog's total by exactly `delta` when the id is present, and by nothing otherwise. */
  lemma RestockChangesUnits(ps: seq<Product>, id: string, delta: int)
    ensures Units(Restocked(ps, id, delta)) == Units(ps) + (if FirstIndex(ps, id).Some? then delta else 0)
  {
  }

  // ---------------------------------------------------------------------
  // Listing

  function EntryOf(p: Product): (e: Entry)
  {
    Entry(p.name, p.id, p.quantity, p.ordersSold)
  }

  /** The listing: one entry per product, in catalog order. */
  function Listing(ps: seq<Product>): (r: seq<Entry>)
    ensures |r| == |ps|
    ensures forall j :: 0 <= j < |ps| ==> r[j] == EntryOf(ps[j])
  {
    if ps == [] then [] else [EntryOf(ps[0])] + Listing(ps[1..])
  }

  /** Adding products one after another lists them after the earlier ones, in the order they were added. */
  lemma ListingAppend(ps: seq<Product>, news: seq<Product>)
    ensures Listing(ps + news) == Listing(ps) + Listing(news)
  {
  }

  // ---------------------------------------------------------------------
  // Stockout prediction

  /** The least integer k with k >= a / b, computed exactly. */
  function CeilDiv(a: int, b: int): (r: int)
    requires b != 0
    ensures b > 0 ==> (r - 1) * b < a <= r * b
    ensures b < 0 ==> r * b <= a < (r - 1) * b
  {
    if b > 0 then
      var q := (-a) / b;
      assert -a == q * b + (-a) % b;
      -q
    else
      var q := a / (-b);
      assert a == q * (-b) + a % (-b);
      -q
  }

  /** The ceiling of a real number, as the source rounds its day count upwards. */
  ghost function Ceiling(x: real): (k: int)
  {
    -((-x).Floor)
  }

  /** The day count the recorded sales give: quantity divided by the sales rate over a 30-day month. */
  ghost function SourceDays(p: Product): (d: real)
    requires p.ordersSold != 0
  {
    (p.quantity as real) / ((p.ordersSold as real) / 30.0)
  }

  lemma CeilDivIsCeiling(a: int, b: int)
    requires b != 0
    ensures CeilDiv(a, b) == Ceiling((a as real) / (b as real))
  {
    var r := CeilDiv(a, b);
    var x := (a as real) / (b as real);
    assert x * (b as real) == a as real;
    if b > 0 {
      assert ((r - 1) * b) as real < a as real <= (r * b) as real;
      assert (r - 1) as real < x <= r as real;
    } else {
      assert (r * b) as real <= a as real < ((r - 1) * b) as real;
      assert (r - 1) as real < x <= r as real;
    }
    assert -(r as real) <= -x < (-r + 1) as real;
    assert (-x).Floor == -r;
  }

  lemma SourceDaysExact(p: Product)
    requires p.ordersSold != 0
    ensures SourceDays(p) == ((30 * p.quantity) as real) / (p.ordersSold as real)
  {
  }

  /**
   The stockout estimate for one product: the ceiling of 30 * quantity / ordersSold,
   computed exactly. With no recorded sales there is no rate to divide by, and
   the estimate says so.
   */
  function Estimate(p: Product): (m: Message)
    ensures p.ordersSold == 0 <==> m == NoSalesHistory(p.name, p.id)
    ensures m.RunsOut? || m.AlreadyOut? || m.NoSalesHistory?
    ensures m.RunsOut? ==> m.name == p.name && m.id == p.id && m.days > 0
    ensures m.AlreadyOut? ==> m.name == p.name && m.id == p.id
    ensures p.ordersSold > 0 ==> (m.RunsOut? <==> p.quantity > 0)
    ensures p.ordersSold > 0 && m.RunsOut? ==>
              (m.days - 1) * p.ordersSold < 30 * p.quantity <= m.days * p.ordersSold
  {
    if p.ordersSold == 0 then NoSalesHistory(p.name, p.id)
    else
      var days := CeilDiv(30 * p.quantity, p.ordersSold);
      if days > 0 then RunsOut(p.name, p.id, days) else AlreadyOut(p.name, p.id)
  }

  /**
   With sales recorded, the estimate is what the source's formula gives when it
   is evaluated exactly over the reals: the ceiling of quantity / (ordersSold / 30),
   reported as a day count when it is positive and as "already out of stock"
   otherwise.
   */
  lemma EstimateMatchesSourceFormula(p: Product)
    requires p.ordersSold != 0
    ensures Estimate(p) == if Ceiling(SourceDays(p)) > 0 then RunsOut(p.name, p.id, Ceiling(SourceDays(p)))
                           else AlreadyOut(p.name, p.id)
  {
    SourceDaysExact(p);
    CeilDivIsCeiling(30 * p.quantity, p.ordersSold);
  }

  /** What a stockout prediction for `id` reports. */
  function Forecast(ps: seq<Product>, id: string): (m: Message)
    ensures m == ProductNotFound <==> FirstIndex(ps, id).None?
  {
    match FirstIndex(ps, id)
    case None => ProductNotFound
    case Some(i) => Estimate(ps[i])
  }
}
