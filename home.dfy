/** The home-page endpoints (frappe_utils/website_customization/api/home.py):
    grouping a product list into the active Home Page Sections, and the
    Shop By Category settings. The Home Page Section and Shop By Category
    tables are sequences of rows; the product list is given. */
module Home {
  import opened Records
  import opened Sorting
  import Text

  /** A Home Page Section row. */
  datatype SectionRow = SectionRow(sectionName: string, order: int, isActive: int)

  function SectionOrder(row: SectionRow): real { row.order as real }

  /** The active rows, in table order. */
  function ActiveRows(rows: seq<SectionRow>): (r: seq<SectionRow>)
    ensures forall x :: x in r <==> x in rows && x.isActive == 1
  {
    if rows == [] then []
    else (if rows[0].isActive == 1 then [rows[0]] else []) + ActiveRows(rows[1..])
  }

  /** `get_sections`: the active sections in ascending `order` (ties in table order). */
  function GetSections(rows: seq<SectionRow>): (r: seq<SectionRow>)
  {
    SortBy(ActiveRows(rows), SectionOrder)
  }

  /** The sections are exactly the active rows, in ascending `order`. */
  lemma GetSectionsSpec(rows: seq<SectionRow>)
    ensures SortedBy(GetSections(rows), SectionOrder)
    ensures forall x :: x in GetSections(rows) <==> x in rows && x.isActive == 1
  {
    SortBySorted(ActiveRows(rows), SectionOrder);
    SortByMembers(ActiveRows(rows), SectionOrder);
  }

  function Names(sections: seq<SectionRow>): (r: seq<string>)
    ensures |r| == |sections|
    ensures forall k :: 0 <= k < |sections| ==> r[k] == sections[k].sectionName
  {
    seq(|sections|, k requires 0 <= k < |sections| => sections[k].sectionName)
  }

  predicate NoDuplicates(s: seq<string>)
  {
    forall i, j :: 0 <= i < j < |s| ==> s[i] != s[j]
  }

  /** The keys of a dict built from `names`: each name once, ordered by its
      first occurrence in `names` (which, with the first two properties,
      determines the keys completely). */
  function Distinct(names: seq<string>): (r: seq<string>)
    ensures NoDuplicates(r)
    ensures forall x :: x in r <==> x in names
    ensures forall i, j :: 0 <= i < j < |r| ==> IndexOf(names, r[i]) < IndexOf(names, r[j])
  {
    if names == [] then []
    else
      var init, last := names[..|names| - 1], names[|names| - 1];
      var front := Distinct(init);
      assert names == init + [last];
      assert forall x :: x in names <==> x in init || x == last;
      IndexOfAppend(init, last);
      if last in front then front else front + [last]
  }

  /** A list without repeated names is its own key list. */
  lemma {:induction false} DistinctOfUnique(names: seq<string>)
    requires NoDuplicates(names)
    ensures Distinct(names) == names
  {
    if names != [] {
      var init, last := names[..|names| - 1], names[|names| - 1];
      assert names == init + [last];
      assert forall k :: 0 <= k < |init| ==> init[k] == names[k];
      assert NoDuplicates(init);
      DistinctOfUnique(init);
      assert last !in init;
      assert Distinct(names) == Distinct(init) + [last];
    }
  }

  /** The `order` of the first section named `name` (0 when there is none). */
  function OrderOf(sections: seq<SectionRow>, name: string): int
  {
    var i := IndexOf(Names(sections), name);
    if i < |sections| then sections[i].order else 0
  }

  /** No key comes after a key whose (first) section has a smaller `order`. */
  predicate KeysInSectionOrder(keys: seq<string>, sections: seq<SectionRow>)
  {
    forall i, j :: 0 <= i < j < |keys| ==> OrderOf(sections, keys[i]) <= OrderOf(sections, keys[j])
  }

  /** The dict's keys come out in ascending section `order`. */
  lemma KeysFollowSections(rows: seq<SectionRow>)
    ensures KeysInSectionOrder(Distinct(Names(GetSections(rows))), GetSections(rows))
  {
    var sections := GetSections(rows);
    GetSectionsSpec(rows);
    var names := Names(sections);
    var keys := Distinct(names);
    forall i, j | 0 <= i < j < |keys| ensures OrderOf(sections, keys[i]) <= OrderOf(sections, keys[j]) {
      assert keys[i] in names && keys[j] in names;
      var a, b := IndexOf(names, keys[i]), IndexOf(names, keys[j]);
      assert a < b < |sections|;
      assert SectionOrder(sections[a]) <= SectionOrder(sections[b]);
    }
  }

  /** `item.get("custom_section")` when it is a non-empty string, the only
      values that can name a section. */
  function SectionOf(item: Doc): (r: Option<string>)
    ensures r.Some? <==> "custom_section" in item && item["custom_section"].VStr? && item["custom_section"].s != ""
    ensures r.Some? ==> r.value == item["custom_section"].s
  {
    match Get(item, "custom_section")
    case VStr(s) => if s != "" then Some(s) else None
    case _ => None
  }

  /** `x.get("custom_section_order") or 0`: a missing or falsy order counts as 0. */
  function OrderKey(item: Doc): (k: real)
    ensures !Truthy(Get(item, "custom_section_order")) ==> k == 0.0
    ensures Get(item, "custom_section_order").VInt? ==> k == Get(item, "custom_section_order").i as real
    ensures Get(item, "custom_section_order").VReal? ==> k == Get(item, "custom_section_order").r
  {
    match Get(item, "custom_section_order")
    case VInt(i) => i as real
    case VReal(r) => r
    case _ => 0.0
  }

  /** The items whose section is `name`, in input order. */
  function InSection(items: seq<Doc>, name: string): (r: seq<Doc>)
  {
    if items == [] then []
    else
      var last := items[|items| - 1];
      InSection(items[..|items| - 1], name) + (if SectionOf(last) == Some(name) then [last] else [])
  }

  /** Step one of `get_products_by_section`: the result dict starts with one
      empty list per distinct section name, in section order. */
  method EmptyGroups(names: seq<string>) returns (keys: seq<string>, groups: map<string, seq<Doc>>)
    ensures keys == Distinct(names)
    ensures groups.Keys == set k | k in keys
    ensures forall k :: k in groups ==> groups[k] == []
  {
    keys, groups := [], map[];
    var i := 0;
    while i < |names|
      invariant 0 <= i <= |names|
      invariant keys == Distinct(names[..i])
      invariant groups.Keys == set k | k in keys
      invariant forall k :: k in groups ==> groups[k] == []
    {
      assert names[..i + 1][..i] == names[..i];
      if names[i] !in groups {
        groups := groups[names[i] := []];
        keys := keys + [names[i]];
      }
      i := i + 1;
    }
    assert names[..i] == names;
  }

  /** Step two: each item whose section is a key is appended to that key's list. */
  method AppendItems(groups0: map<string, seq<Doc>>, items: seq<Doc>) returns (groups: map<string, seq<Doc>>)
    requires forall k :: k in groups0 ==> groups0[k] == []
    ensures groups.Keys == groups0.Keys
    ensures forall k :: k in groups ==> groups[k] == InSection(items, k)
  {
    groups := groups0;
    var j := 0;
    while j < |items|
      invariant 0 <= j <= |items|
      invariant groups.Keys == groups0.Keys
      invariant forall k :: k in groups ==> groups[k] == InSection(items[..j], k)
    {
      assert items[..j + 1][..j] == items[..j];
      var section := SectionOf(items[j]);
      if section.Some? && section.value in groups {
        groups := groups[section.value := groups[section.value] + [items[j]]];
      }
      j := j + 1;
    }
    assert items[..j] == items;
  }

  /** Step three: every list is sorted by its items' order key. */
  method SortGroups(keys: seq<string>, groups0: map<string, seq<Doc>>) returns (groups: map<string, seq<Doc>>)
    requires NoDuplicates(keys)
    requires groups0.Keys == set k | k in keys
    ensures groups.Keys == groups0.Keys
    ensures forall k :: k in groups ==> groups[k] == SortBy(groups0[k], OrderKey)
  {
    groups := groups0;
    var m := 0;
    while m < |keys|
      invariant 0 <= m <= |keys|
      invariant groups.Keys == groups0.Keys
      invariant forall k :: k in groups ==>
        groups[k] == if k in keys[..m] then SortBy(groups0[k], OrderKey) else groups0[k]
    {
      assert forall k :: k in keys[..m + 1] <==> k in keys[..m] || k == keys[m];
      assert keys[m] !in keys[..m];
      groups := groups[keys[m] := SortBy(groups[keys[m]], OrderKey)];
      m := m + 1;
    }
    assert keys[..m] == keys;
  }

  /** `get_products_by_section`, from the section table and the product list
      it is given: one key per distinct active section name, in section order,
      each holding that section's products stably sorted by their order key. */
  method ProductsBySection(sectionRows: seq<SectionRow>, items: seq<Doc>)
    returns (keys: seq<string>, groups: map<string, seq<Doc>>)
    ensures GetSections(sectionRows) == [] ==> keys == [] && groups == map[]
    ensures keys == Distinct(Names(GetSections(sectionRows)))
    ensures KeysInSectionOrder(keys, GetSections(sectionRows))
    ensures NoDuplicates(Names(GetSections(sectionRows))) ==> keys == Names(GetSections(sectionRows))
    ensures groups.Keys == set k | k in keys
    ensures forall k :: k in groups ==> groups[k] == SortBy(InSection(items, k), OrderKey)
  {
    var sections := GetSections(sectionRows);
    KeysFollowSections(sectionRows);
    if NoDuplicates(Names(sections)) {
      DistinctOfUnique(Names(sections));
    }
    if sections == [] {
      return [], map[];
    }
    var empty;
    keys, empty := EmptyGroups(Names(sections));
    var filled := AppendItems(empty, items);
    groups := SortGroups(keys, filled);
  }

  /** An item lands in a section's list once for every time it occurs in the
      input with that section, and never otherwise. */
  lemma {:induction false} InSectionCounts(items: seq<Doc>, name: string, x: Doc)
    ensures multiset(InSection(items, name))[x] == if SectionOf(x) == Some(name) then multiset(items)[x] else 0
  {
    if items != [] {
      var front, last := items[..|items| - 1], items[|items| - 1];
      InSectionCounts(front, name, x);
      assert items == front + [last];
    }
  }

  /** Each section's list is a permutation of the input items of that section,
      sorted by order key, with ties in input order. */
  lemma SectionListSpec(items: seq<Doc>, name: string)
    ensures SortedBy(SortBy(InSection(items, name), OrderKey), OrderKey)
    ensures forall x :: multiset(SortBy(InSection(items, name), OrderKey))[x]
                        == if SectionOf(x) == Some(name) then multiset(items)[x] else 0
    ensures forall k :: WithKey(SortBy(InSection(items, name), OrderKey), OrderKey, k)
                        == WithKey(InSection(items, name), OrderKey, k)
  {
    SortBySorted(InSection(items, name), OrderKey);
    SortByPermutes(InSection(items, name), OrderKey);
    forall x ensures multiset(InSection(items, name))[x]
                     == if SectionOf(x) == Some(name) then multiset(items)[x] else 0 {
      InSectionCounts(items, name, x);
    }
    forall k ensures WithKey(SortBy(InSection(items, name), OrderKey), OrderKey, k)
                     == WithKey(InSection(items, name), OrderKey, k) {
      SortByStable(InSection(items, name), OrderKey, k);
    }
  }

  /** A Shop By Category row. */
  datatype CategoryRow = CategoryRow(parent: string, displayName: string, value: string,
                                     thumbnail: string, order: int)

  function CategoryOrder(row: CategoryRow): real { row.order as real }

  /** The rows that belong to the settings document, in table order. */
  function SettingsRows(rows: seq<CategoryRow>): (r: seq<CategoryRow>)
    ensures forall x :: x in r <==> x in rows && x.parent == "Website Customization Settings"
  {
    if rows == [] then []
    else (if rows[0].parent == "Website Customization Settings" then [rows[0]] else [])
         + SettingsRows(rows[1..])
  }

  /** The columns `get_shop_by_category` selects from a row. */
  datatype Category = Category(displayName: string, value: string, thumbnail: string)

  /** `SELECT display_name, value, thumbnail`, row by row. */
  function Columns(rows: seq<CategoryRow>): (r: seq<Category>)
    ensures |r| == |rows|
    ensures forall k :: 0 <= k < |rows| ==>
              r[k] == Category(rows[k].displayName, rows[k].value, rows[k].thumbnail)
  {
    seq(|rows|, k requires 0 <= k < |rows| => Category(rows[k].displayName, rows[k].value, rows[k].thumbnail))
  }

  datatype ShopByCategory = ShopByCategory(categories: seq<Category>, filterField: string)

  /** `get_shop_by_category`: nothing when no website item field is set;
      otherwise three columns of the settings' categories in ascending `order`, and the field
      name cut at its first space. */
  function GetShopByCategory(websiteItemField: string, rows: seq<CategoryRow>): (r: Option<ShopByCategory>)
    ensures websiteItemField == "" <==> r.None?
    ensures r.Some? ==> ' ' !in r.value.filterField
    ensures r.Some? ==> |r.value.filterField| <= |websiteItemField|
                        && r.value.filterField == websiteItemField[..|r.value.filterField|]
    ensures r.Some? && |r.value.filterField| < |websiteItemField|
            ==> websiteItemField[|r.value.filterField|] == ' '
    ensures r.Some? ==> r.value.categories == Columns(SortBy(SettingsRows(rows), CategoryOrder))
  {
    if websiteItemField == "" then None
    else Some(ShopByCategory(Columns(SortBy(SettingsRows(rows), CategoryOrder)), Text.FirstToken(websiteItemField)))
  }
}
