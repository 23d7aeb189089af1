/** The catalog endpoints of frappe_utils/api.py: product filters, stock of one
    item, and the product listing with each item's stock merged in. Whether the
    `webshop` app is installed is a parameter; the webshop functions it would
    call (filter builder, child groups, stock lookup, product query) are
    parameters too. */
module Api {
  import opened Records

  /** The `filters` part of `get_product_filters`: `{}` without webshop. */
  datatype Filters = NoFilters | Filters(fieldFilters: seq<Doc>, attributeFilters: seq<Doc>)

  datatype ProductFilters = ProductFilters(filters: Filters, subCategories: seq<Doc>)

  /** Python truthiness of the optional `item_group` argument. */
  predicate GroupGiven(itemGroup: Option<string>)
  {
    itemGroup.Some? && itemGroup.value != ""
  }

  /** `get_product_filters`: without webshop, no filters and no sub-categories;
      otherwise the builder's field and attribute filters, and the immediate
      child groups of `item_group` when it is given and non-empty. */
  function GetProductFilters(installed: bool, itemGroup: Option<string>,
                             fieldFilters: seq<Doc>, attributeFilters: seq<Doc>,
                             childGroups: string -> seq<Doc>): (r: ProductFilters)
    ensures !installed ==> r == ProductFilters(NoFilters, [])
    ensures installed ==> r.filters == Filters(fieldFilters, attributeFilters)
    ensures !GroupGiven(itemGroup) ==> r.subCategories == []
    ensures installed && GroupGiven(itemGroup) ==> r.subCategories == childGroups(itemGroup.value)
  {
    if !installed then ProductFilters(NoFilters, [])
    else
      var subCategories := if GroupGiven(itemGroup) then childGroups(itemGroup.value) else [];
      ProductFilters(Filters(fieldFilters, attributeFilters), subCategories)
  }

  /** A falsy `item_group` is treated as no group at all, and the child-group
      lookup is then never consulted. */
  lemma FalsyGroupIsNoGroup(installed: bool, itemGroup: Option<string>, fieldFilters: seq<Doc>,
                            attributeFilters: seq<Doc>, childGroups: string -> seq<Doc>,
                            otherChildGroups: string -> seq<Doc>)
    requires !GroupGiven(itemGroup)
    ensures GetProductFilters(installed, itemGroup, fieldFilters, attributeFilters, childGroups)
            == GetProductFilters(installed, None, fieldFilters, attributeFilters, otherChildGroups)
  {
  }

  /** The stock document returned without webshop. */
  const NoStock: Doc := map["in_stock" := VInt(0), "stock_qty" := VReal(0.0), "is_stock_item" := VInt(0)]

  /** `get_stock`: the webshop lookup of the item in its website warehouse, or
      the fixed out-of-stock document without webshop. */
  function GetStock(installed: bool, itemCode: string, warehouse: Option<string>,
                    lookup: (string, Option<string>) -> Doc): (r: Doc)
    ensures !installed ==> r.Keys == {"in_stock", "stock_qty", "is_stock_item"}
    ensures !installed ==> Get(r, "in_stock") == VInt(0) && Get(r, "is_stock_item") == VInt(0)
    ensures !installed ==> Get(r, "stock_qty") == VReal(0.0)
    ensures installed ==> r == lookup(itemCode, warehouse)
  {
    if !installed then NoStock else lookup(itemCode, warehouse)
  }

  /** The product query's answer: its `items` (absent or a list) and every other key. */
  datatype FilterData = FilterData(items: Option<seq<Doc>>, other: Doc)

  /** `get_products_with_stock`'s answer: the fixed `{"message": {"items": []}}`
      without webshop, otherwise the (possibly empty) product query result. */
  datatype ProductsResult = Message(items: seq<Doc>) | Returned(data: Option<FilterData>)

  /** Is there nothing to merge into (`not data or not data.get("items")`)? */
  predicate NoItems(data: Option<FilterData>)
  {
    data.None? || data.value.items.None? || data.value.items.value == []
  }

  /** One item after the merge: a non-empty stock document overwrites its keys,
      every other field is kept; an empty one leaves the item as it was. */
  function Overlay(item: Doc, stockOf: Value -> Doc): (r: Doc)
    ensures stockOf(Get(item, "item_code")) == map[] ==> r == item
    ensures r.Keys == item.Keys + stockOf(Get(item, "item_code")).Keys
    ensures forall k :: k in stockOf(Get(item, "item_code")) ==> r[k] == stockOf(Get(item, "item_code"))[k]
    ensures forall k :: k in item && k !in stockOf(Get(item, "item_code")) ==> r[k] == item[k]
  {
    var stock := stockOf(Get(item, "item_code"));
    if stock != map[] then Update(item, stock) else item
  }

  /** Merging twice is merging once, as long as the stock document does not
      itself rename the item. */
  lemma OverlayTwice(item: Doc, stockOf: Value -> Doc)
    requires "item_code" !in stockOf(Get(item, "item_code"))
    ensures Overlay(Overlay(item, stockOf), stockOf) == Overlay(item, stockOf)
  {
    var once := Overlay(item, stockOf);
    assert Get(once, "item_code") == Get(item, "item_code");
  }

  /** The merge loop: every item in turn is overlaid with its stock. The count
      and the order of the items are kept. */
  method MergeStock(items: seq<Doc>, stockOf: Value -> Doc) returns (merged: seq<Doc>)
    ensures |merged| == |items|
    ensures forall i :: 0 <= i < |items| ==> merged[i] == Overlay(items[i], stockOf)
  {
    merged := items;
    for i := 0 to |items|
      invariant |merged| == |items|
      invariant forall j :: 0 <= j < i ==> merged[j] == Overlay(items[j], stockOf)
      invariant forall j :: i <= j < |items| ==> merged[j] == items[j]
    {
      var stock := stockOf(Get(merged[i], "item_code"));
      if stock != map[] {
        merged := merged[i := Update(merged[i], stock)];
      }
    }
  }

  /** `get_products_with_stock`. */
  method GetProductsWithStock(installed: bool, data: Option<FilterData>, stockOf: Value -> Doc)
    returns (r: ProductsResult)
    ensures !installed ==> r == Message([])
    ensures installed && NoItems(data) ==> r == Returned(data)
    ensures installed && !NoItems(data) ==>
              && r.Returned? && r.data.Some? && r.data.value.other == data.value.other
              && r.data.value.items.Some?
              && |r.data.value.items.value| == |data.value.items.value|
              && forall i :: 0 <= i < |data.value.items.value| ==>
                   r.data.value.items.value[i] == Overlay(data.value.items.value[i], stockOf)
  {
    if !installed {
      return Message([]);
    }
    if NoItems(data) {
      return Returned(data);
    }
    var merged := MergeStock(data.value.items.value, stockOf);
    r := Returned(Some(FilterData(Some(merged), data.value.other)));
  }
}
