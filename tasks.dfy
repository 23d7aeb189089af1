/** The daily unpublish sweep (frappe_utils/tasks.py): every discontinued
    Website Item gets its `published` flag set to the visibility rule's verdict,
    and a row is written only when its flag differs from that verdict. The
    Website Item table is an array of rows, updated in place; the stock lookup
    of the `webshop` app is a function parameter. */
module Tasks {
  import opened Records
  import Publishing

  /** A Website Item row, with the fields the sweep reads and writes. */
  datatype WebsiteItem = WebsiteItem(name: string, itemCode: string, published: bool,
                                     discontinued: bool, websiteWarehouse: string)

  /** `get_web_item_qty_in_stock(item_code, "website_warehouse", warehouse)`,
      reduced to its `stock_qty` entry (None when the entry is absent). */
  type StockLookup = (string, string) -> Option<real>

  /** `stock_data.get("stock_qty", 0.0)`. */
  function StockQty(entry: Option<real>): (q: real)
    ensures entry.None? ==> q == 0.0
    ensures entry.Some? ==> q == entry.value
  {
    match entry
    case None => 0.0
    case Some(q) => q
  }

  /** The flag a discontinued row should carry after the sweep. */
  function Target(item: WebsiteItem, stockOf: StockLookup, workOrders: seq<Publishing.WorkOrder>): bool
  {
    Publishing.ShouldBePublished(item.itemCode, StockQty(stockOf(item.itemCode, item.websiteWarehouse)), true, workOrders)
  }

  /** The sweep writes a row exactly when it is discontinued and its flag is not the target. */
  predicate NeedsWrite(item: WebsiteItem, stockOf: StockLookup, workOrders: seq<Publishing.WorkOrder>)
  {
    item.discontinued && item.published != Target(item, stockOf, workOrders)
  }

  /** The row after the sweep: only `published` of a discontinued row can change. */
  function Swept(item: WebsiteItem, stockOf: StockLookup, workOrders: seq<Publishing.WorkOrder>): (r: WebsiteItem)
    ensures r == item.(published := r.published)
    ensures item.discontinued ==> r.published == Target(item, stockOf, workOrders)
    ensures !item.discontinued ==> r == item
    ensures r != item <==> NeedsWrite(item, stockOf, workOrders)
  {
    if item.discontinued then item.(published := Target(item, stockOf, workOrders)) else item
  }

  /** `daily_unpublish_job`. Returns the indices of the rows it wrote. */
  method DailyUnpublishJob(table: array<WebsiteItem>, webshopInstalled: bool, stockOf: StockLookup,
                           workOrders: seq<Publishing.WorkOrder>) returns (written: set<int>)
    modifies table
    ensures !webshopInstalled ==> table[..] == old(table[..]) && written == {}
    ensures webshopInstalled ==>
      forall i :: 0 <= i < table.Length ==> table[i] == Swept(old(table[i]), stockOf, workOrders)
    ensures webshopInstalled ==>
      written == set i | 0 <= i < table.Length && NeedsWrite(old(table[i]), stockOf, workOrders)
  {
    written := {};
    if !webshopInstalled {
      return;
    }
    var n := 0;
    while n < table.Length
      invariant 0 <= n <= table.Length
      invariant forall i :: 0 <= i < n ==> table[i] == Swept(old(table[i]), stockOf, workOrders)
      invariant forall i :: n <= i < table.Length ==> table[i] == old(table[i])
      invariant written == set i | 0 <= i < n && NeedsWrite(old(table[i]), stockOf, workOrders)
    {
      var item := table[n];
      if item.discontinued {
        var stockQty := StockQty(stockOf(item.itemCode, item.websiteWarehouse));
        var isVisible := Publishing.ShouldBePublished(item.itemCode, stockQty, true, workOrders);
        if !isVisible {
          if item.published {
            table[n] := item.(published := false);
            written := written + {n};
          }
        } else {
          if !item.published {
            table[n] := item.(published := true);
            written := written + {n};
          }
        }
      }
      n := n + 1;
    }
  }

  /** After the sweep no row needs a write, so a second run with the same stock
      and Work Orders writes nothing; sweeping twice equals sweeping once. */
  lemma SweepIsIdempotent(item: WebsiteItem, stockOf: StockLookup, workOrders: seq<Publishing.WorkOrder>)
    ensures !NeedsWrite(Swept(item, stockOf, workOrders), stockOf, workOrders)
    ensures Swept(Swept(item, stockOf, workOrders), stockOf, workOrders) == Swept(item, stockOf, workOrders)
  {
  }

  /** A second run of the job, on the table the first run left, writes no row. */
  method SecondRunWritesNothing(table: array<WebsiteItem>, stockOf: StockLookup,
                                workOrders: seq<Publishing.WorkOrder>) returns (first: set<int>, second: set<int>)
    modifies table
    ensures second == {}
  {
    var before := table[..];
    first := DailyUnpublishJob(table, true, stockOf, workOrders);
    var after := table[..];
    forall i | 0 <= i < |after|
      ensures !NeedsWrite(after[i], stockOf, workOrders)
    {
      SweepIsIdempotent(before[i], stockOf, workOrders);
    }
    second := DailyUnpublishJob(table, true, stockOf, workOrders);
  }
}
