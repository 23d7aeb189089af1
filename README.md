# frappe_utils core, modelled in Dafny

This project models the storefront logic of the `frappe_utils` Frappe app:

- the visibility rule for discontinued Website Items and the daily job that
  applies it to the Website Item table;
- the home-page grouping of products by section and the "shop by category"
  block;
- the per-company credit dashboard of a customer;
- newsletter subscription;
- self-registration (user, customer, portal-user link);
- the password-reset request;
- the paginated wishlist;
- the catalog endpoints that merge stock into product listings and fall back
  to fixed answers when the `webshop` app is absent.

Each source file of the core has one module:

| module | source | form |
|---|---|---|
| `Publishing` | `frappe_utils/utils.py` | functions |
| `Tasks` | `frappe_utils/tasks.py` | a method over an `array` of Website Item rows, updated in place |
| `Home` | `frappe_utils/website_customization/api/home.py` | loop methods that build the section map, plus functions |
| `Dashboard` | `frappe_utils/website_customization/api/dashboard.py` | a loop method over the set of companies |
| `Subscribe` | `frappe_utils/website_customization/api/subscribe.py` | the class `MemberTable` holding the Email Group Member table |
| `Registration` | `frappe_utils/website_customization/api/registration.py` | the class `Site` holding the User and Customer tables |
| `ResetPassword` | `frappe_utils/website_customization/api/reset_password.py` | functions |
| `Wishlist` | `frappe_utils/website_customization/api/wishlist.py` | functions |
| `Api` | `frappe_utils/api.py` | functions, and the stock-merge loop as a method |

Three helper modules are shared:

- `Records` holds `Option`, the field values and the dict-shaped documents (`Doc`).
- `Text` models Python's `strip`, ASCII `lower` and the first-space split.
- `Sorting` is a stable sort by a numeric key. It stands for Python's
  `list.sort(key=...)` and for SQL `ORDER BY`, and comes with sortedness,
  permutation and stability lemmas.

Several things become parameters or tables:

- Database tables (User, Customer, Work Order, Wishlist Item, Email Group
  Member, Home Page Section, Shop By Category) are sequences of records.
- Whether `webshop` is installed is a boolean.
- The functions of other apps become function parameters. These are the
  stock lookup, the product query, the filter builder, the child-group lookup,
  the email validator and the reset mailer.
- Whether a save raises is a parameter.

Money is a whole number of minor currency units.

In three places the code behaves differently from what its messages and
comments suggest, and the model follows the code:

- In `reset_password.py`, an absent or empty identifier reaches `_()`, which
  that module never imports. The call therefore raises instead of answering
  "Identifier is required." (`ResetPassword.Reset`).
- `validate_email_address(email, True)` raises on an invalid address. So
  "User has no valid email." is the answer only for a missing or empty email,
  or when the validator returns something falsy; an invalid address makes the
  call raise.
- In the reset query, `AND` binds tighter than `OR`. The `enabled = 1` test
  therefore restricts only the phone comparison: a disabled user is still
  found by username or email.

## Model

| member | source | states |
|---|---|---|
| Text.Strip | frappe_utils/website_customization/api/reset_password.py:10 | the result is a slice of the input with only whitespace removed at both ends, and starts and ends with non-whitespace |
| Text.Lower | frappe_utils/website_customization/api/reset_password.py:10 | same length; every character is lower-cased, ASCII letters only |
| Text.SplitFirstSpace | frappe_utils/website_customization/api/registration.py:21 | `split(" ", 1)`: the head has no space; there is a tail exactly when the input has a space, and head, space and tail rebuild the input |
| Text.FirstToken | frappe_utils/website_customization/api/home.py:52 | `split(" ")[0]`: the longest space-free prefix, followed by a space when it is shorter than the input |
| Text.StripFront | frappe_utils/website_customization/api/reset_password.py:10 | whitespace put in front of a string is removed by `strip()` with it |
| Text.StripBack | frappe_utils/website_customization/api/reset_password.py:10 | whitespace put after a string is removed by `strip()` with it |
| Text.StripUpToCase | frappe_utils/website_customization/api/reset_password.py:10 | strings that differ only in the case of ASCII letters are equal after `strip().lower()` |
| Sorting.SortBy | frappe_utils/website_customization/api/home.py:39 | defines the stable sort by a numeric key that stands for `list.sort(key=...)` here and for `ORDER BY` at `home.py:11`, `home.py:59` and `wishlist.py:26` (its properties in the three lemmas below) |
| Sorting.SortByPermutes | frappe_utils/website_customization/api/home.py:38-39 | sorting is a permutation: same multiset of elements |
| Sorting.SortBySorted | frappe_utils/website_customization/api/home.py:38-39 | the result is ascending by the key |
| Sorting.SortByStable | frappe_utils/website_customization/api/home.py:38-39 | the sort is stable: elements with equal keys keep their input order |
| Sorting.SortByMembers | frappe_utils/website_customization/api/home.py:38-39 | sorting keeps the length and the members |
| Publishing.HasActiveWorkOrder | frappe_utils/utils.py:24-36 | true exactly when some Work Order is for the item, is neither Completed nor Cancelled, and has docstatus 0 or 1 |
| Publishing.IsActiveFor | frappe_utils/utils.py:29-36 | defines the filter of the lookup: the Work Order is for the item, its status is neither Completed nor Cancelled, and its docstatus is 0 or 1 |
| Publishing.ShouldBePublished | frappe_utils/utils.py:4-22 | false exactly when the item is discontinued, its stock is at most 0 and it has no active Work Order |
| Publishing.InactiveOrdersIgnored | frappe_utils/utils.py:29-36 | adding a Work Order that is for another item, Completed, Cancelled, or has a docstatus other than 0 or 1 never changes the verdict |
| Publishing.ActiveOrderKeepsVisible | frappe_utils/utils.py:19-20 | one active Work Order makes a discontinued item publishable whatever its stock |
| Publishing.WorkOrdersOnlyWhenConsulted | frappe_utils/utils.py:13-20 | unless the item is discontinued with stock at most 0, it is publishable and the Work Order table does not matter |
| Publishing.DiscontinuedWithoutStock | frappe_utils/utils.py:16-22 | a discontinued item with stock at most 0 is publishable exactly when an active Work Order exists |
| Publishing.DefaultsArePublishable | frappe_utils/utils.py:4-14 | with the default arguments (stock 0, not discontinued) the item is publishable |
| Tasks.StockQty | frappe_utils/tasks.py:23 | `stock_data.get("stock_qty", 0.0)`: a missing entry is 0.0, a present one is itself |
| Tasks.Target | frappe_utils/tasks.py:22-25 | defines the flag a row should carry: the visibility rule for the row's item, its looked-up stock, and discontinued = 1 |
| Tasks.NeedsWrite | frappe_utils/tasks.py:27-34 | defines when `set_value` runs: the row is discontinued and its flag differs from the target |
| Tasks.Swept | frappe_utils/tasks.py:21-34 | only `published` can change; a discontinued row gets the visibility verdict for its looked-up stock (missing stock counts as 0), other rows are unchanged, and a row changes exactly when it needs a write |
| Tasks.DailyUnpublishJob | frappe_utils/tasks.py:6-34 | without webshop the table is untouched and nothing is written; otherwise every row becomes its swept row, and the rows written are exactly the discontinued rows whose flag differed from the verdict |
| Tasks.SweepIsIdempotent | frappe_utils/tasks.py:27-34 | a swept row needs no write, and sweeping it again changes nothing |
| Tasks.SecondRunWritesNothing | frappe_utils/tasks.py:21-34 | a second run with the same stock and Work Orders writes no row |
| Home.ActiveRows | frappe_utils/website_customization/api/home.py:5-15 | exactly the sections with `is_active = 1` |
| Home.GetSections | frappe_utils/website_customization/api/home.py:5-15 | defines the query: the active rows sorted stably by `order` (properties in `Home.GetSectionsSpec`) |
| Home.GetSectionsSpec | frappe_utils/website_customization/api/home.py:5-15 | the sections are ascending by `order` and are exactly the active rows |
| Records.IndexOf | frappe_utils/website_customization/api/home.py:30 | the first position of a value in the list, or the length when it is absent; it places each name in the section list, and the first space for `split(" ", 1)` at `registration.py:21` |
| Home.Distinct | frappe_utils/website_customization/api/home.py:30 | the dict's keys: no duplicates, the same names as the section list, and ordered by each name's first occurrence, which fixes them completely |
| Home.DistinctOfUnique | frappe_utils/website_customization/api/home.py:30 | a section list without repeated names is exactly the key list |
| Home.KeysFollowSections | frappe_utils/website_customization/api/home.py:5-15 | the keys come out in ascending section `order`, as the comment at `home.py:29` promises |
| Home.SectionOf | frappe_utils/website_customization/api/home.py:33 | an item has a section exactly when `custom_section` is a non-empty string, and then it is that string |
| Home.OrderKey | frappe_utils/website_customization/api/home.py:39 | `custom_section_order or 0`: a falsy or missing order is 0, a number is itself |
| Home.EmptyGroups | frappe_utils/website_customization/api/home.py:30 | one empty list per distinct section name, with the keys in first-occurrence order |
| Home.InSection | frappe_utils/website_customization/api/home.py:32-35 | defines the list the loop builds for one section: the items whose `custom_section` names it, in input order (counted in `Home.InSectionCounts`) |
| Home.AppendItems | frappe_utils/website_customization/api/home.py:32-35 | each key's list is exactly the items of that section, in input order; the keys are unchanged |
| Home.SortGroups | frappe_utils/website_customization/api/home.py:38-39 | each list is replaced by its stable sort by section order; the keys are unchanged |
| Home.ProductsBySection | frappe_utils/website_customization/api/home.py:17-41 | no active section gives an empty map; otherwise one key per distinct active section name in ascending section `order` (exactly the section names when they are unique), each holding the items of that section sorted stably by section order |
| Home.InSectionCounts | frappe_utils/website_customization/api/home.py:32-35 | an item occurs in a section's list as often as in the input if it belongs to that section, otherwise never |
| Home.SectionListSpec | frappe_utils/website_customization/api/home.py:32-39 | each section's final list is sorted, is a permutation of that section's items, and keeps input order among equal keys |
| Home.SettingsRows | frappe_utils/website_customization/api/home.py:54-61 | exactly the rows whose parent is Website Customization Settings |
| Home.Columns | frappe_utils/website_customization/api/home.py:55 | `SELECT display_name, value, thumbnail`: one entry per row, holding exactly those three columns |
| Home.GetShopByCategory | frappe_utils/website_customization/api/home.py:45-62 | an empty field gives `{}`; otherwise the filter field is the part before the first space, and the categories are the three selected columns of the settings rows ascending by `order` |
| Dashboard.LineFor | frappe_utils/website_customization/api/dashboard.py:48-50 | defines the line built for one company: its credit limit and outstanding, each 0 when absent, and their difference as balance |
| Dashboard.CompaniesSpec | frappe_utils/website_customization/api/dashboard.py:45 | a company is in the result's company set exactly when some line names it |
| Dashboard.AppendLine | frappe_utils/website_customization/api/dashboard.py:52-61 | appending a line for a new company keeps the companies distinct, and adds its amounts to the three totals |
| Dashboard.TotalBalance | frappe_utils/website_customization/api/dashboard.py:50-54 | when each line's balance is its credit limit minus its outstanding, so is the total |
| Dashboard.VisitOne | frappe_utils/website_customization/api/dashboard.py:47-61 | one loop iteration keeps the loop invariant and adds the line's amounts to the totals |
| Dashboard.CompanyLines | frappe_utils/website_customization/api/dashboard.py:41-61 | one line per company of either map, none twice, each with the credit limit and outstanding of that company (0 when absent) and their difference; the totals are the column sums |
| Dashboard.GetFinancialInfo | frappe_utils/website_customization/api/dashboard.py:5-71 | an empty customer raises "Customer is required"; otherwise the customer, the company lines as above, and totals whose balance is total credit minus total outstanding |
| Subscribe.HasActiveMember | frappe_utils/website_customization/api/subscribe.py:14-15 | true exactly when a row for this group and email is not unsubscribed |
| Subscribe.OtherRowsDoNotBlock | frappe_utils/website_customization/api/subscribe.py:14 | an unsubscribed row, or one for another group or email, never blocks a subscription |
| Subscribe.FirstFailure | frappe_utils/website_customization/api/subscribe.py:5-16 | the checks in order (mail disabled, no group, already subscribed) with their messages; passing exactly when all three pass |
| Subscribe.MemberTable.Email | frappe_utils/website_customization/api/subscribe.py:4-27 | a failed check leaves the table unchanged and answers its message; otherwise one active member row is appended and success is answered, or on a failed save the table is unchanged and the service is reported unavailable |
| Subscribe.SubscribeTwice | frappe_utils/website_customization/api/subscribe.py:14-24 | after a successful subscription, the same request is answered "already subscribed" |
| Registration.SplitContactName | frappe_utils/website_customization/api/registration.py:19-26 | no name for an absent or empty contact name; the stripped name with an empty last name when there is no space; otherwise first name, space and last name rebuild the stripped name, with no space in the first name |
| Registration.LeadingSpaceName | frappe_utils/website_customization/api/registration.py:19-23 | " Bob" has a space but strips to "Bob", giving last name "" |
| Registration.DoubleSpaceName | frappe_utils/website_customization/api/registration.py:19-23 | "Ann  Lee" splits once, so the last name keeps a leading space |
| Registration.NewUser | frappe_utils/website_customization/api/registration.py:14-34 | defines the User saved first: the given name, the email, the split contact name, enabled, no welcome email, the password, the phone, Website User, no roles |
| Registration.WithCustomerRole | frappe_utils/website_customization/api/registration.py:37-38 | defines the user after `add_roles("Customer")`, which runs only when the role exists |
| Registration.NewCustomer | frappe_utils/website_customization/api/registration.py:46-56 | defines the Customer created when none matches: business name, Company, tax id, email, phone, and the group and territory defaults |
| Registration.UserExists | frappe_utils/website_customization/api/registration.py:10 | defines `frappe.db.exists("User", email)`: some user is named by the email |
| Registration.FindCustomer | frappe_utils/website_customization/api/registration.py:41 | the first customer whose email matches, or none exactly when no customer matches |
| Registration.LinkUser | frappe_utils/website_customization/api/registration.py:61-71 | only the portal users change; the user is listed afterwards, appended exactly when absent |
| Registration.LinkUserOnce | frappe_utils/website_customization/api/registration.py:61-71 | after linking, the user appears exactly once and no other portal user's count changes |
| Registration.IsLinked | frappe_utils/website_customization/api/registration.py:61-65 | the loop with its break answers whether the user is already a portal user |
| Registration.ExistingUserChangesNothing | frappe_utils/website_customization/api/registration.py:10-11 | an existing user with this email blocks registration and nothing is written |
| Registration.EarlyFailureKeepsUser | frappe_utils/website_customization/api/registration.py:34-44 | when adding the role or looking up the customer raises, the saved user stays (with the role only if the lookup raised), no customer changes, and the answer is the generic failure |
| Registration.ReusedCustomerIsLinked | frappe_utils/website_customization/api/registration.py:41-80 | with a matching customer, success adds the user, adds no customer, changes no other customer, and lists the user once on the reused customer |
| Registration.NewCustomerIsCreated | frappe_utils/website_customization/api/registration.py:45-80 | without a matching customer, success appends one Company customer with the request's data, the group and territory defaults, and the user as its only portal user |
| Registration.RegisterSpec | frappe_utils/website_customization/api/registration.py:5-84 | defines the whole call as new tables and a response, for each step that may raise; writes made before the raising step stay |
| Registration.Site.Register | frappe_utils/website_customization/api/registration.py:5-84 | the new tables and the response are those of `Registration.RegisterSpec`, whichever step raises |
| ResetPassword.Normalise | frappe_utils/website_customization/api/reset_password.py:10 | the identifier stripped and lower-cased, character by character |
| ResetPassword.LowerEquals | frappe_utils/website_customization/api/reset_password.py:18-19 | defines `LOWER(column) = id`, never true for a NULL column |
| ResetPassword.Matches | frappe_utils/website_customization/api/reset_password.py:17-21 | defines the WHERE clause as SQL groups it: username, or email, or (phone with NULL read as '', and enabled) |
| ResetPassword.FirstMatch | frappe_utils/website_customization/api/reset_password.py:13-31 | `LIMIT 1`: the first matching user, and none exactly when no user matches |
| ResetPassword.Reset | frappe_utils/website_customization/api/reset_password.py:6-46 | an absent or empty identifier raises; "No user found." exactly when no user matches; for a match, "User has no valid email." exactly when its email is missing, empty or judged falsy, a raise exactly when the validator raises, and "Failed to send reset link." exactly when the email is valid and the mailer raises |
| ResetPassword.SentSpec | frappe_utils/website_customization/api/reset_password.py:28-43 | a link is sent exactly when a user matches, the first match has a valid email and the mailer succeeds; the answer names that email |
| ResetPassword.NoMatchSpec | frappe_utils/website_customization/api/reset_password.py:28-29 | with no matching user the answer is "No user found." |
| ResetPassword.DisabledUserMatchesOnlyByName | frappe_utils/website_customization/api/reset_password.py:17-21 | operator precedence: a disabled user matches exactly by username or email, never by phone |
| ResetPassword.IdentifierCaseIgnored | frappe_utils/website_customization/api/reset_password.py:10-22 | identifiers that differ only in the case of ASCII letters normalise alike and get the same answer |
| ResetPassword.SurroundingWhitespaceIgnored | frappe_utils/website_customization/api/reset_password.py:10-22 | whitespace around an identifier is ignored: it normalises like the bare identifier and, when that is not empty, gets the same answer |
| ResetPassword.BlankIdentifierMatchesPhoneless | frappe_utils/website_customization/api/reset_password.py:7-21 | a whitespace-only identifier passes the emptiness test, normalises to "" and matches an enabled user without a phone |
| Wishlist.OfUser | frappe_utils/website_customization/api/wishlist.py:25 | exactly the rows whose parent is the user |
| Wishlist.Ordered | frappe_utils/website_customization/api/wishlist.py:25-26 | defines `WHERE parent = %s ORDER BY idx DESC`: the user's rows sorted stably by descending `idx` |
| Wishlist.Window | frappe_utils/website_customization/api/wishlist.py:27 | `LIMIT/OFFSET`: at most `limit` rows, the k-th being row `offset + k`, and none past the end |
| Wishlist.Codes | frappe_utils/website_customization/api/wishlist.py:30 | the item codes of the page, in order |
| Wishlist.PageRows | frappe_utils/website_customization/api/wishlist.py:19-29 | a negative limit or offset is rejected; otherwise the window at `(page - 1) * limit` over the user's rows by `idx` descending, with at most `limit` rows, all the user's |
| Wishlist.GetWishlist | frappe_utils/website_customization/api/wishlist.py:17-37 | a rejected query errors; an empty page answers `[]`; otherwise the catalog entries of the page's item codes |
| Wishlist.EmptyPageSkipsCatalog | frappe_utils/website_customization/api/wishlist.py:32-33 | an empty page gives `[]` whatever the catalog holds |
| Wishlist.FirstPageStartsWithNewest | frappe_utils/website_customization/api/wishlist.py:26 | the first entry of page 1 has the user's highest `idx` |
| Wishlist.LaterOffset | frappe_utils/website_customization/api/wishlist.py:21 | a later page's offset is at least one limit past an earlier one |
| Wishlist.FirstPagesArePrefix | frappe_utils/website_customization/api/wishlist.py:21-27 | pages 1 to p together are exactly the first `p * limit` rows, so no row is skipped or repeated |
| Wishlist.PagesAreDisjoint | frappe_utils/website_customization/api/wishlist.py:21-27 | two different pages of a list without repeats share no row |
| Api.GetProductFilters | frappe_utils/api.py:7-38 | without webshop, no filters and no sub-categories; otherwise the builder's filters; sub-categories are empty unless `item_group` is given, and then are its child groups |
| Api.FalsyGroupIsNoGroup | frappe_utils/api.py:24-33 | a missing or empty `item_group` gives the same answer as no group, whatever the child-group lookup would return |
| Api.GetStock | frappe_utils/api.py:42-47 | without webshop, exactly `in_stock=0`, `stock_qty=0.0` and `is_stock_item=0`; otherwise the webshop lookup |
| Api.NoItems | frappe_utils/api.py:60 | defines `not data or not data.get("items")`: no data, no `items` key, or an empty list |
| Api.Overlay | frappe_utils/api.py:63-66 | a non-empty stock document overwrites its keys and keeps every other field; an empty one leaves the item unchanged |
| Api.OverlayTwice | frappe_utils/api.py:63-66 | merging stock twice is merging once when the stock does not rename the item |
| Api.MergeStock | frappe_utils/api.py:63-66 | the count and order of items are kept, and each item is overlaid with its own stock |
| Api.GetProductsWithStock | frappe_utils/api.py:51-68 | without webshop, `{"message": {"items": []}}`; no data or no items returns the data unchanged; otherwise every other key is kept and each item is overlaid in place |

## Left out

- Google Drive backup and OAuth, form scripts, patches and the ad-hoc verification scripts are not part of this model. They are network I/O, UI or schema configuration.
- The customer endpoint and wishlist `create`/`remove` are not modelled. Each is a single call into `webshop`.
- SQL text, `frappe.db.commit`, `log_error` and translation `_()` are not modelled. Only their effect on answers and tables is kept: commits are not rolled back, and a write made before a later save raised stays (`Registration.RegisterSpec`).
- The functions of `webshop` and of Frappe's core are parameters, so their own behaviour is not modelled. These are the stock lookup, the product query, the filter builder, the child groups, `reset_password` and `validate_email_address`.
- The catalog call in `get_wishlist` is a parameter. How `get_products_with_stock` answers it is modelled separately in `Api`.
- Dashboard.GetFinancialInfo: amounts are whole numbers, so `flt` and float rounding are not modelled.
- Dashboard.GetFinancialInfo: no order of `company_wise` is stated. The source iterates a Python set, so its order is arbitrary.
- Text.Lower: only ASCII letters are lower-cased. Python's and MariaDB's full Unicode case mapping is not modelled.
- ResetPassword.FirstMatch: `LOWER(col) = %s` is compared exactly after ASCII lower-casing. The database collation's trailing-space and accent rules are not modelled.
- ResetPassword.FirstMatch: `LIMIT 1` without `ORDER BY` is modelled as the first match in table order, as is `get_value` in `Registration.FindCustomer`.
- Home.OrderKey: a non-numeric `custom_section_order` counts as 0. In Python, sorting strings against numbers raises.
- Sorting ties in `ORDER BY` are kept in table order. A database may break them in any order.
- Home.ProductsBySection starts from the item list. The call at `home.py:24-27` passes `home_page=1`, which `get_products_with_stock` does not accept, so that call is not modelled.
- Registration.NewCustomer: a fresh Customer is taken to have no territory before the defaults apply. Doctype defaults that would pre-fill it are not modelled.
- Registration.NewCustomer: the new customer's name comes from the Customer naming rule, which is a parameter.
- Registration.NewUser: the new user's name comes from Frappe's User naming rule, which is not in these files, so it is a parameter. Frappe names a user after its email, so the name normally equals the email the existence check at `registration.py:10` looks up.
- Registration.WithCustomerRole: a new user is taken to have no roles before `add_roles`. Roles Frappe adds by default are not modelled.
- Subscribe.HasActiveMember: the group and email are compared exactly. Under a case-insensitive database collation, an email differing only in case would count as already subscribed.
- Registration.FindCustomer: the email is compared exactly. A case-insensitive collation could match a customer whose email differs only in case.
- Registration.UserExists: the user name is compared exactly. A case-insensitive collation could find an existing user whose name differs only in case.
- Wishlist.PageRows: `page` and `limit` are integers. The `int()` conversion of other inputs, and its error, are not modelled.
- Wishlist.PageRows: a negative LIMIT or OFFSET is an SQL error.
- Api.GetProductsWithStock: the merge builds new item documents. The source updates the dicts in place, and that aliasing is not modelled.
- Tasks.DailyUnpublishJob: the job walks the whole table and skips rows that are not discontinued, instead of querying only discontinued rows. The rows written are the same.
