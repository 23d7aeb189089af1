/** Paginated wishlist (frappe_utils/website_customization/api/wishlist.py):
    a LIMIT/OFFSET window over the user's Wishlist Item rows ordered by `idx`
    descending, then a catalog lookup of the item codes in that window. The
    Wishlist Item table is a sequence of rows; the catalog lookup is a parameter. */
module Wishlist {
  import opened Records
  import opened Sorting

  datatype WishlistItem = WishlistItem(parent: string, itemCode: string, idx: int)

  /** Sorting ascending by this key is `ORDER BY idx DESC`. */
  function Descending(row: WishlistItem): real { -(row.idx as real) }

  /** `WHERE parent = user`, in table order. */
  function OfUser(rows: seq<WishlistItem>, user: string): (r: seq<WishlistItem>)
    ensures forall x :: x in r <==> x in rows && x.parent == user
  {
    if rows == [] then []
    else (if rows[0].parent == user then [rows[0]] else []) + OfUser(rows[1..], user)
  }

  /** The user's rows, highest `idx` first. */
  function Ordered(rows: seq<WishlistItem>, user: string): seq<WishlistItem>
  {
    SortBy(OfUser(rows, user), Descending)
  }

  /** `LIMIT limit OFFSET offset` over an ordered result. */
  function Window<T>(s: seq<T>, offset: nat, limit: nat): (r: seq<T>)
    ensures |r| == if offset >= |s| then 0 else if offset + limit >= |s| then |s| - offset else limit
    ensures forall k :: 0 <= k < |r| ==> r[k] == s[offset + k]
  {
    if offset >= |s| then [] else if offset + limit >= |s| then s[offset..] else s[offset..offset + limit]
  }

  function Codes(rows: seq<WishlistItem>): (r: seq<string>)
    ensures |r| == |rows| && forall k :: 0 <= k < |rows| ==> r[k] == rows[k].itemCode
  {
    seq(|rows|, k requires 0 <= k < |rows| => rows[k].itemCode)
  }

  datatype Outcome = Items(items: seq<Doc>) | SqlError

  /** The rows of one page: None when the database rejects a negative LIMIT or OFFSET. */
  function PageRows(rows: seq<WishlistItem>, user: string, page: int, limit: int): (r: Option<seq<WishlistItem>>)
    ensures r.Some? <==> limit >= 0 && (page - 1) * limit >= 0
    ensures r.Some? ==> r.value == Window(Ordered(rows, user), (page - 1) * limit, limit)
    ensures r.Some? ==> |r.value| <= limit
    ensures r.Some? ==> forall x :: x in r.value ==> x in rows && x.parent == user
  {
    var offset := (page - 1) * limit;
    if limit < 0 || offset < 0 then None
    else
      var w := Window(Ordered(rows, user), offset, limit);
      SortByMembers(OfUser(rows, user), Descending);
      assert forall x :: x in w ==> x in Ordered(rows, user);
      Some(w)
  }

  /** `get_wishlist`: the catalog entries of the page's item codes; an empty
      page is answered with [] before the catalog is asked. */
  function GetWishlist(rows: seq<WishlistItem>, user: string, page: int, limit: int,
                       catalog: seq<string> -> seq<Doc>): (r: Outcome)
    ensures PageRows(rows, user, page, limit).None? <==> r.SqlError?
    ensures PageRows(rows, user, page, limit) == Some([]) ==> r == Items([])
    ensures PageRows(rows, user, page, limit).Some? && PageRows(rows, user, page, limit) != Some([])
            ==> r == Items(catalog(Codes(PageRows(rows, user, page, limit).value)))
  {
    match PageRows(rows, user, page, limit)
    case None => SqlError
    case Some(page) =>
      var names := Codes(page);
      if names == [] then Items([]) else Items(catalog(names))
  }

  /** An empty page does not depend on the catalog at all. */
  lemma EmptyPageSkipsCatalog(rows: seq<WishlistItem>, user: string, page: int, limit: int,
                              catalog: seq<string> -> seq<Doc>, other: seq<string> -> seq<Doc>)
    requires PageRows(rows, user, page, limit) == Some([])
    ensures GetWishlist(rows, user, page, limit, catalog) == GetWishlist(rows, user, page, limit, other) == Items([])
  {
  }

  /** Page 1 starts with the user's highest `idx`. */
  lemma FirstPageStartsWithNewest(rows: seq<WishlistItem>, user: string, limit: int)
    requires limit >= 1
    requires PageRows(rows, user, 1, limit).Some? && PageRows(rows, user, 1, limit).value != []
    ensures forall x :: x in rows && x.parent == user ==> x.idx <= PageRows(rows, user, 1, limit).value[0].idx
  {
    var s := Ordered(rows, user);
    SortBySorted(OfUser(rows, user), Descending);
    SortByMembers(OfUser(rows, user), Descending);
    forall x | x in rows && x.parent == user ensures x.idx <= s[0].idx {
      var j :| 0 <= j < |s| && s[j] == x;
      if j > 0 { assert Descending(s[0]) <= Descending(s[j]); }
    }
  }

  /** Pages 1 to `p` of a list, one after the other. */
  function FirstPages<T>(s: seq<T>, limit: nat, p: nat): seq<T>
  {
    if p == 0 then [] else FirstPages(s, limit, p - 1) + Window(s, (p - 1) * limit, limit)
  }

  /** `(p + 1) * limit` is one limit past `p * limit`. */
  lemma NextOffset(p: nat, limit: nat)
    ensures (p + 1) * limit == p * limit + limit
  {
  }

  /** A later page starts at least one limit later. */
  lemma {:induction false} LaterOffset(p: nat, q: nat, limit: nat)
    requires p < q
    ensures p * limit + limit <= q * limit
    decreases q - p
  {
    NextOffset(p, limit);
    if q > p + 1 {
      LaterOffset(p + 1, q, limit);
    }
  }

  /** `n`, or `len` when `n` is past it. */
  function Clamp(n: nat, len: nat): nat
  {
    if n <= len then n else len
  }

  /** The window at `a` continues the first `a` rows by up to `limit` rows. */
  lemma WindowExtendsPrefix<T>(s: seq<T>, a: nat, limit: nat)
    ensures s[..Clamp(a, |s|)] + Window(s, a, limit) == s[..Clamp(a + limit, |s|)]
  {
    if a < |s| && a + limit < |s| {
      assert s[..a] + s[a..a + limit] == s[..a + limit];
    } else if a < |s| {
      assert s[..a] + s[a..] == s;
    }
  }

  /** Consecutive pages with one limit tile the list: pages 1 to `p` together
      are its first `p * limit` elements, so no element is on two pages and none
      is skipped. */
  lemma {:induction false} FirstPagesArePrefix<T>(s: seq<T>, limit: nat, p: nat)
    ensures FirstPages(s, limit, p) == s[..Clamp(p * limit, |s|)]
  {
    if p > 0 {
      FirstPagesArePrefix(s, limit, p - 1);
      NextOffset(p - 1, limit);
      WindowExtendsPrefix(s, (p - 1) * limit, limit);
    }
  }

  /** Two windows of one limit, the second starting at least a limit after the
      first, over a list without repeated entries share no entry. */
  lemma WindowsAreDisjoint<T>(s: seq<T>, limit: nat, a: nat, b: nat, x: T)
    requires forall i, j :: 0 <= i < j < |s| ==> s[i] != s[j]
    requires a + limit <= b
    ensures !(x in Window(s, a, limit) && x in Window(s, b, limit))
  {
  }

  /** Two different pages of a list without repeated entries share no entry. */
  lemma PagesAreDisjoint<T>(s: seq<T>, limit: nat, p: nat, q: nat, x: T)
    requires forall i, j :: 0 <= i < j < |s| ==> s[i] != s[j]
    requires 1 <= p < q
    ensures !(x in Window(s, (p - 1) * limit, limit) && x in Window(s, (q - 1) * limit, limit))
  {
    LaterOffset(p - 1, q - 1, limit);
    WindowsAreDisjoint(s, limit, (p - 1) * limit, (q - 1) * limit, x);
  }
}
