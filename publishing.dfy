/** The visibility rule for discontinued website items (frappe_utils/utils.py):
    an item is hidden only when it is discontinued, has no stock and no active
    Work Order produces it. The Work Order table is a plain sequence of records. */
module Publishing {

  /** A Work Order row, with the fields the rule looks at. */
  datatype WorkOrder = WorkOrder(productionItem: string, status: string, docstatus: int)

  /** A Work Order is active for `itemCode` when it produces that item, is
      neither Completed nor Cancelled, and is a draft (0) or submitted (1). */
  predicate IsActiveFor(wo: WorkOrder, itemCode: string)
  {
    && wo.productionItem == itemCode
    && wo.status != "Completed" && wo.status != "Cancelled"
    && (wo.docstatus == 0 || wo.docstatus == 1)
  }

  /** `has_active_work_order`: does any row of the table count as active for the item? */
  function HasActiveWorkOrder(itemCode: string, workOrders: seq<WorkOrder>): (r: bool)
    ensures r <==> exists i :: 0 <= i < |workOrders| && IsActiveFor(workOrders[i], itemCode)
  {
    if workOrders == [] then false
    else IsActiveFor(workOrders[0], itemCode) || HasActiveWorkOrder(itemCode, workOrders[1..])
  }

  /** Whether the Work Order table is consulted: only for a discontinued item
      without stock, because the checks before it return first. */
  predicate ConsultsWorkOrders(stockQty: real, isDiscontinued: bool)
  {
    isDiscontinued && !(stockQty > 0.0)
  }

  /** `should_be_published`: true when the item may be visible, false when it must be hidden. */
  function ShouldBePublished(itemCode: string, stockQty: real, isDiscontinued: bool,
                             workOrders: seq<WorkOrder>): (r: bool)
    ensures !r <==> isDiscontinued && stockQty <= 0.0 && !HasActiveWorkOrder(itemCode, workOrders)
  {
    if !isDiscontinued then true
    else if stockQty > 0.0 then true
    else if HasActiveWorkOrder(itemCode, workOrders) then true
    else false
  }

  /** A Work Order that names another item, is finished, or is cancelled never
      keeps an item visible. */
  lemma InactiveOrdersIgnored(itemCode: string, stockQty: real, workOrders: seq<WorkOrder>, wo: WorkOrder)
    requires !IsActiveFor(wo, itemCode)
    ensures ShouldBePublished(itemCode, stockQty, true, workOrders + [wo])
            == ShouldBePublished(itemCode, stockQty, true, workOrders)
  {
    var both := workOrders + [wo];
    assert forall i :: 0 <= i < |workOrders| ==> both[i] == workOrders[i];
    if HasActiveWorkOrder(itemCode, both) {
      var i :| 0 <= i < |both| && IsActiveFor(both[i], itemCode);
      assert i < |workOrders| && both[i] == workOrders[i];
    }
  }

  /** One active Work Order for the item keeps a discontinued, out-of-stock item visible. */
  lemma ActiveOrderKeepsVisible(itemCode: string, stockQty: real, workOrders: seq<WorkOrder>, i: nat)
    requires i < |workOrders| && IsActiveFor(workOrders[i], itemCode)
    ensures ShouldBePublished(itemCode, stockQty, true, workOrders)
  {
  }

  /** Short-circuit order: unless the item is discontinued and out of stock, the
      verdict does not depend on the Work Order table at all. */
  lemma WorkOrdersOnlyWhenConsulted(itemCode: string, stockQty: real, isDiscontinued: bool,
                                    workOrders: seq<WorkOrder>, others: seq<WorkOrder>)
    requires !ConsultsWorkOrders(stockQty, isDiscontinued)
    ensures ShouldBePublished(itemCode, stockQty, isDiscontinued, workOrders)
    ensures ShouldBePublished(itemCode, stockQty, isDiscontinued, workOrders)
            == ShouldBePublished(itemCode, stockQty, isDiscontinued, others)
  {
  }

  /** A discontinued, out-of-stock item is visible exactly when an active Work Order exists. */
  lemma DiscontinuedWithoutStock(itemCode: string, stockQty: real, workOrders: seq<WorkOrder>)
    requires stockQty <= 0.0
    ensures ShouldBePublished(itemCode, stockQty, true, workOrders)
            <==> exists i :: 0 <= i < |workOrders| && IsActiveFor(workOrders[i], itemCode)
  {
  }

  /** With the defaults `stock_qty=0, is_discontinued=0` the item is publishable. */
  lemma DefaultsArePublishable(itemCode: string, workOrders: seq<WorkOrder>)
    ensures ShouldBePublished(itemCode, 0.0, false, workOrders)
  {
  }
}
