/**
 The inventory object: an ordered list of products that its operations scan
 and update in place, plus the activity log it appends to. Each operation is
 proved against the specification functions of module Catalog.
 */
module RetailInventory {
  import opened Catalog

  /** One line of the activity log file. */
  datatype LogLine =
    | Header
    | Added(name: string, id: string, quantity: int)
    | Updated(name: string, id: string, quantity: int)

  /** The log line an adjustment writes: the first match's name, id and new quantity, or nothing when the id is absent. */
  function RestockLog(ps: seq<Product>, id: string, delta: int): (r: seq<LogLine>)
    ensures |r| <= 1
    ensures r != [] <==> FirstIndex(ps, id).Some?
  {
    match FirstIndex(ps, id)
    case None => []
    case Some(i) => [Updated(ps[i].name, ps[i].id, ps[i].quantity + delta)]
  }

  class Inventory {
    var products: seq<Product>
    /** Whether the log file could be opened; writes to an unopened log are lost. */
    ghost const logOpen: bool
    /** The lines this inventory has written to the log file. */
    ghost var log: seq<LogLine>

    /** Opening the log file is I/O: its outcome is the parameter `logOpened`. */
    constructor (logOpened: bool)
      ensures products == [] && logOpen == logOpened
      ensures log == if logOpened then [Header] else []
    {
      products := [];
      logOpen := logOpened;
      log := if logOpened then [Header] else [];
    }

    /** Appends the product, whatever its id, and always reports success. */
    method AddProduct(p: Product) returns (ok: bool)
      modifies this
      ensures ok
      ensures products == old(products) + [p]
      ensures log == old(log) + if logOpen then [Added(p.name, p.id, p.quantity)] else []
    {
      products := products + [p];
      if logOpen {
        log := log + [Added(p.name, p.id, p.quantity)];
      }
      ok := true;
    }

    /**
     Adds `delta` (of either sign, with no floor) to the quantity of the first
     product with `id`. Reports not-found, and logs nothing, when there is none.
     */
    method UpdateProductQuantity(id: string, delta: int) returns (msgs: seq<Message>)
      modifies this
      ensures products == Restocked(old(products), id, delta)
      ensures msgs == if FirstIndex(old(products), id).None? then [ProductNotFound] else []
      ensures log == old(log) + if logOpen then RestockLog(old(products), id, delta) else []
    {
      var found := false;
      var i := 0;
      while i < |products|
        invariant 0 <= i <= |products|
        invariant products == old(products) && log == old(log)
        invariant forall j :: 0 <= j < i ==> products[j].id != id
      {
        if products[i].id == id {
          products := products[i := products[i].(quantity := products[i].quantity + delta)];
          if logOpen {
            log := log + [Updated(products[i].name, products[i].id, products[i].quantity)];
          }
          found := true;
          break;
        }
        i := i + 1;
      }
      msgs := [];
      if !found {
        msgs := [ProductNotFound];
      }
    }

    /**
     Sells `n` units of the first product with `id` when it has at least `n` in
     stock. The amount itself is not checked.
     */
    method SellProduct(id: string, n: int) returns (msgs: seq<Message>)
      modifies this
      ensures products == AfterSale(old(products), id, n)
      ensures msgs == SaleReport(old(products), id, n)
      ensures log == old(log)
    {
      var found := false;
      msgs := [];
      var i := 0;
      while i < |products|
        invariant 0 <= i <= |products|
        invariant products == old(products) && msgs == [] && !found
        invariant forall j :: 0 <= j < i ==> products[j].id != id
      {
        if products[i].id == id {
          if products[i].quantity >= n {
            products := products[i := products[i].(quantity := products[i].quantity - n,
                                                  ordersSold := products[i].ordersSold + n)];
            msgs := msgs + [Sold(n, products[i].name)];
            found := true;
          } else {
            msgs := msgs + [InsufficientStock(products[i].name)];
          }
          break;
        }
        i := i + 1;
      }
      if !found {
        msgs := msgs + [ProductNotFound];
      }
    }

    /** The listing of every product, in the order the products were added. */
    method DisplayInventory() returns (entries: seq<Entry>)
      ensures entries == Listing(products)
    {
      entries := [];
      for i := 0 to |products|
        invariant |entries| == i
        invariant forall j :: 0 <= j < i ==> entries[j] == EntryOf(products[j])
      {
        entries := entries + [EntryOf(products[i])];
      }
    }

    /** The stockout estimate for the first product with `id`, or not-found. */
    method PredictStockout(id: string) returns (msg: Message)
      ensures msg == Forecast(products, id)
    {
      for i := 0 to |products|
        invariant forall j :: 0 <= j < i ==> products[j].id != id
      {
        if products[i].id == id {
          msg := Estimate(products[i]);
          return;
        }
      }
      msg := ProductNotFound;
    }
  }

  /** The worked scenario for one product: add, list, sell, refused sale, and an adjustment of an unknown id. */
  method WidgetScenario()
  {
    var inv := new Inventory(true);
    var ok := inv.AddProduct(NewProduct("Widget", "A1", 10, 1.0, 2.0));
    assert ok;
    var listed := inv.DisplayInventory();
    assert listed == [Entry("Widget", "A1", 10, 0)];

    var msgs := inv.SellProduct("A1", 4);
    assert msgs == [Sold(4, "Widget")];
    listed := inv.DisplayInventory();
    assert listed == [Entry("Widget", "A1", 6, 4)];
    var again := inv.DisplayInventory();
    assert again == listed;

    msgs := inv.SellProduct("A1", 100);
    assert msgs == [InsufficientStock("Widget"), ProductNotFound];
    listed := inv.DisplayInventory();
    assert listed == [Entry("Widget", "A1", 6, 4)];

    var forecast := inv.PredictStockout("A1");
    assert forecast == RunsOut("Widget", "A1", 45);

    var empty := new Inventory(false);
    msgs := empty.UpdateProductQuantity("ZZ", 5);
    assert msgs == [ProductNotFound];
    assert empty.log == [];
  }
}
