# ecommerce-api in Dafny

A model of the storefront and back office of the ecommerce-api
repository. The storefront is a React app. Its parts modelled here are the
cart provider, the cart page, the catalogue page, the review widget, the
notifications page, the profile page and the product card. The back office
is the admin products and orders pages, plus the FastAPI routes behind
them: admin, reviews and uploads, and the `crud` helpers.

Backend tables are maps from primary key to record (`Tables`, `Records`).
A listing is the rows of such a map in ascending key order, filtered and
then cut by `.offset(skip).limit(limit)`. Every route is a pure function
from the store and the request to a `Result` and the new store. An HTTP
error is a `HttpError(status, detail)` value. Values the backend invents
are parameters of the operation that uses them: row ids, clock readings,
uuids, the password hash. So are the outcome of a network call and the
content of `localStorage`.

Frontend state is an immutable value. Each handler is a function from the
old state to the new one. JavaScript truthiness is written out: `0`, `""`
and a missing field are falsy. `x || y`, `x ?? y` and `?.` are modelled as
the code writes them, and where two handlers of the same page use
different keys the model keeps them apart. Prices are integers in minor
units.

Modules, one per source file plus shared helpers:

- `Wrappers`, `Seqs`, `Sorting`, `Text`, `Tables`: option and result
  types, order-preserving filter and count, an insertion sort over a
  total preorder, ASCII case mapping, substring search, JavaScript
  `trim()`, decimal rendering, ordered keys and paging.
- `Records`: the user, product and order rows with their enums, and the
  low-stock threshold of 10.
- `CartContext`, `CartPage`, `Crud`: the cart provider, the cart page and
  the cart/product/user helpers of `app/crud.py`.
- `Catalogue`, `Images`, `ProductCard`: the product listing, image URLs
  and the card's badges.
- `AdminAccess`, `AdminProducts`, `AdminOrders`, `AdminApi`: the admin
  guard, the two admin pages, and the admin routes.
- `Register`, `Profile`, `Notifications`: the registration form, the
  profile page and the notification list.
- `Reviews`, `ProductReviews`: the review routes and the review widget.
- `Uploads`: the image upload and delete routes.

## Model

| member | source | states |
|---|---|---|
| `AdminAccess.HasAdminAccess` | ecommerce-frontend/src/pages/admin/AdminProducts.jsx:30 | An admin page renders iff a user is present and their role is `admin` or `super_admin`. |
| `AdminAccess.GuardMatchesRoles` | ecommerce-frontend/src/pages/admin/AdminOrders.jsx:14 | Of the backend's three roles, exactly the admin and super-admin roles pass the guard. |
| `CartContext.FindRowSpec` | ecommerce-frontend/src/contexts/CartContext.jsx:39-42 | The `findIndex` of the merge returns the first line with the row's key, or -1 when no line has it. |
| `CartContext.DedupSummarises` | ecommerce-frontend/src/contexts/CartContext.jsx:37-53 | The merged cart has one line for each product key among the rows, and nothing else. Each line is the first row with that key, carrying the summed quantity. Lines are in first-occurrence order. |
| `CartContext.DedupDistinct` | ecommerce-frontend/src/contexts/CartContext.jsx:36-53 | No two lines of the merged cart share the reload key: the nested product id, else `product_id`. |
| `CartContext.DedupLineQuantity` | ecommerce-frontend/src/contexts/CartContext.jsx:44-47 | Each merged line's quantity is the sum of the quantities of all rows with its key. |
| `CartContext.DedupConservesCount` | ecommerce-frontend/src/contexts/CartContext.jsx:44-47 | The merge keeps the item count: the sum of quantities is the same before and after. |
| `CartContext.DedupIdentity` | ecommerce-frontend/src/contexts/CartContext.jsx:40-51 | A response with no repeated key comes out of the merge unchanged. |
| `CartContext.DedupIdempotent` | ecommerce-frontend/src/contexts/CartContext.jsx:37-53 | Merging an already merged cart changes nothing. |
| `CartContext.LoadCart` | ecommerce-frontend/src/contexts/CartContext.jsx:31-59 | A failed GET leaves the cart as it was. A successful one yields a cart with distinct keys and the same item count as the response. |
| `CartContext.LoadReplaces` | ecommerce-frontend/src/contexts/CartContext.jsx:55 | After a successful reload, every line is a response row with its key's total quantity. No line survives from the previous cart, so guest lines are not merged in. |
| `CartContext.OnUserChange` | ecommerce-frontend/src/contexts/CartContext.jsx:12-22 | A signed-in user gets the backend reload. A guest gets the saved cart when there is one, and otherwise keeps the current cart. |
| `CartContext.AddToLocal` | ecommerce-frontend/src/contexts/CartContext.jsx:84-101 | For a product already in the cart, the matching lines gain one unit and the other lines and the length stay as they were. For a new product, one line with quantity 1 is appended. |
| `CartContext.AddToLocalCount` | ecommerce-frontend/src/contexts/CartContext.jsx:84-101 | On a cart with one line per product, adding a product raises the item count by exactly one. |
| `CartContext.RemoveLocal` | ecommerce-frontend/src/contexts/CartContext.jsx:119-122 | The removal keeps exactly the lines whose key differs from the product id. |
| `CartContext.RemoveLocalSubsequence` | ecommerce-frontend/src/contexts/CartContext.jsx:115-122 | The removal is the filter on the line key. It keeps the remaining lines in their order and keeps them one per product. |
| `CartContext.RemoveAbsentIsNoOp` | ecommerce-frontend/src/contexts/CartContext.jsx:119-122 | Removing a product with no line in the cart changes nothing. |
| `CartContext.UpdateLocalQuantity` | ecommerce-frontend/src/contexts/CartContext.jsx:150-159 | The quantity is set absolutely on every matching line. Other lines and the length are unchanged, and nothing is inserted. |
| `CartContext.ClearCart` | ecommerce-frontend/src/contexts/CartContext.jsx:161-164 | After clearing, the item count and the total are both 0. |
| `CartContext.LocalMutationsKeepKeysDistinct` | ecommerce-frontend/src/contexts/CartContext.jsx:84-159 | Starting from one line per product, the add, set-quantity and remove mutations each keep one line per product. |
| `CartContext.AddToCart` | ecommerce-frontend/src/contexts/CartContext.jsx:61-82 | A guest, or a signed-in user whose POST fails, gets the local add. A successful POST is followed by the backend reload. |
| `CartContext.RemoveFromCart` | ecommerce-frontend/src/contexts/CartContext.jsx:104-124 | A guest gets the local filter. Signed in, nothing happens unless some line matches the product. When one matches, the result is the reload after a successful DELETE, or the local filter after a failed one. |
| `CartContext.UpdateQuantity` | ecommerce-frontend/src/contexts/CartContext.jsx:126-148 | A quantity of 0 or less is a removal. Otherwise a guest gets the local update, and a signed-in user gets the reload or, after a failed PUT, the local update. Signed in with no matching line, nothing changes. |
| `CartContext.FailedWriteFallsBack` | ecommerce-frontend/src/contexts/CartContext.jsx:61-148 | For add, remove and set-quantity, a signed-in user whose write fails ends with the same cart a guest would. |
| `CartContext.GuestOperationsKeepInvariant` | ecommerce-frontend/src/contexts/CartContext.jsx:61-159 | From a cart with one line per product and positive quantities, every guest operation keeps both properties. |
| `CartPage.PlaceOrder` | ecommerce-frontend/src/pages/Cart.jsx:29-50 | With no user, no checkout request is made and the cart is untouched. A successful checkout empties the cart. A failed one leaves the cart and shows the server's detail when there is one, else the generic message. |
| `CartPage.PlaceOrderAggregates` | ecommerce-frontend/src/pages/Cart.jsx:37-39 | After a placed order, the item count and the total are 0. After any other outcome, both are unchanged. |
| `CartPage.NormaliseId` | ecommerce-frontend/src/pages/Cart.jsx:17-27 | A line argument gives its nested product id when there is one, else its own id. A scalar id passes through unchanged. |
| `CartPage.NormalisedLineIsRemoved` | ecommerce-frontend/src/pages/Cart.jsx:17-21 | Removing a line through the handler, as a guest, removes that line. |
| `CartPage.DisplayId` | ecommerce-frontend/src/pages/Cart.jsx:70-71 | The id shown on a row is the nested product's id, else the line's own id. |
| `CartPage.DisplayPrice` | ecommerce-frontend/src/pages/Cart.jsx:70-73 | The row's price is the nested product's price, else the line's own price. A missing price counts as 0. |
| `CartPage.LineSubtotal` | ecommerce-frontend/src/pages/Cart.jsx:73-74 | A row whose price or quantity is 0 or missing has subtotal 0. |
| `CartPage.SubtotalsAddUpToTotal` | ecommerce-frontend/src/pages/Cart.jsx:111-127 | When every line carries its price in one place, the row subtotals add up to the total shown under the list (`getCartTotal`). |
| `CartPage.MinusRequest` | ecommerce-frontend/src/pages/Cart.jsx:97 | The minus button asks for the row's product id with a quantity below the current one. |
| `CartPage.MinusAtOneRemoves` | ecommerce-frontend/src/pages/Cart.jsx:97 | At quantity 1, the minus button is a removal, for a guest and for a signed-in user. A guest's line added locally disappears from the cart. |
| `Crud.AddToCart` | app/crud.py:29-34 | The call always inserts a new row under a fresh id, holding the given user, product and quantity. Existing rows are untouched. |
| `Crud.TwoAddsTwoRows` | app/crud.py:29-37 | Two adds of the same product give two distinct rows for it, and both are listed for the user. |
| `Crud.GetCartItems` | app/crud.py:36-37 | The result holds exactly the rows whose user id matches. |
| `Crud.RemoveCartItem` | app/crud.py:39-45 | It returns True iff the row exists. The table loses that row and only that row, and is unchanged when the row is absent. |
| `Crud.AddThenRemove` | app/crud.py:29-45 | Adding a row and removing it again restores the table. |
| `Crud.UpdateProduct` | app/crud.py:63-71 | An unknown id gives None and no change. Otherwise the name, description, price and quantity are overwritten from the input, the other fields are kept, and no other product changes. |
| `Crud.UpdateProductIdempotent` | app/crud.py:63-71 | Applying the same update twice is the same as applying it once. |
| `Crud.DeleteProduct` | app/crud.py:73-79 | It returns True iff the product exists, and the row is removed from the table (a hard delete). |
| `Crud.DeleteProductTwice` | app/crud.py:73-79 | The delete is final: deleting the same id again returns False and changes nothing. |
| `Crud.UpdateUser` | app/crud.py:81-95 | As the lookup was evidently meant: an unknown user gives 404. A truthy username or email that another account holds makes the commit fail with an `IntegrityError`, because both columns are unique (app/models.py:22-23). Otherwise only a truthy username, email or password is applied, the password is stored hashed, and nothing else changes. |
| `Crud.UpdateUserKeepsAccountsUnique` | app/models.py:22-23 | A successful update of a table with unique usernames and emails leaves them unique. |
| `Crud.EmptyUserUpdateIsNoOp` | app/crud.py:86-91 | Every update whose fields are all absent or empty leaves the table unchanged. |
| `Crud.UpdateUserAsWrittenFails` | app/crud.py:81-95 | An existing user and a valid new name still fail as written, while the corrected update renames that user. |
| `Catalogue.ParseSort` | ecommerce-frontend/src/pages/Products.jsx:51-58 | `price-low` and `price-high` select the two price orders. Any other value sorts by name. |
| `Catalogue.BeforeIsTotalPreorder` | ecommerce-frontend/src/pages/Products.jsx:50-60 | Each of the three comparators is a total preorder, so sorting by it is well defined. |
| `Catalogue.FilteredProducts` | ecommerce-frontend/src/pages/Products.jsx:43-60 | The result is a permutation of the products that match both the search and the category. It is sorted by the selected comparator, and never longer than the input. |
| `Catalogue.PriceOrders` | ecommerce-frontend/src/pages/Products.jsx:52-55 | `price-low` lists cheapest first and `price-high` lists dearest first. |
| `Catalogue.NoFilterKeepsAll` | ecommerce-frontend/src/pages/Products.jsx:45-47 | With an empty search and no category, every product is listed. |
| `Catalogue.Categories` | ecommerce-frontend/src/pages/Products.jsx:63 | The category list holds each non-empty category of some product exactly once, and nothing else. |
| `Catalogue.UrlParams` | ecommerce-frontend/src/pages/Products.jsx:23-27 | `search` is written iff non-empty, `sort` iff not `name`, and `category` iff non-empty. No other parameter is written. |
| `Catalogue.UrlRoundTrip` | ecommerce-frontend/src/pages/Products.jsx:11-27 | Reading the written parameters back with the page's logical-or defaults restores the search, the category and every non-empty sort key. An empty sort key is written as `sort=` and reads back as `name`. |
| `Images.ImageUrl` | ecommerce-frontend/src/pages/Cart.jsx:11-15 | A missing or empty path gives the placeholder, and a path starting with `http` is kept. Any other path is prefixed with the backend origin. |
| `Images.CartImageUrl` | ecommerce-frontend/src/pages/Cart.jsx:11-15 | The cart page resolves paths like the card does and differs only in its placeholder. |
| `Images.CardImageUrl` | ecommerce-frontend/src/components/ProductCard.jsx:6-10 | The card resolves a non-empty path exactly as the cart page does, with its own placeholder otherwise. |
| `Images.ResolveIdempotent` | ecommerce-frontend/src/components/ProductCard.jsx:6-10 | Resolving an already resolved URL again changes nothing. |
| `ProductCard.FromRecord` | ecommerce-frontend/src/components/ProductCard.jsx:24-33 | A backend product reaches the card with its quantity and no `stock` field. |
| `ProductCard.StockValue` | ecommerce-frontend/src/components/ProductCard.jsx:24 | The stock value the badges read: a non-zero quantity, else the `stock` field, as JavaScript's logical or gives it. |
| `ProductCard.ShowLowBadge` | ecommerce-frontend/src/components/ProductCard.jsx:24-28 | "Only N left" shows iff the stock value is present and between 1 and 5. |
| `ProductCard.BadgesExclusive` | ecommerce-frontend/src/components/ProductCard.jsx:84-93 | The two badges never show together, and a low badge means the product is below the low-stock threshold. |
| `ProductCard.ZeroQuantityFallsThrough` | ecommerce-frontend/src/components/ProductCard.jsx:29 | With quantity 0, the badges follow `stock`: neither shows when there is no `stock`, and "Out of Stock" shows iff `stock` is 0. |
| `ProductCard.SoldOutRecordShowsNoBadge` | ecommerce-frontend/src/components/ProductCard.jsx:89-93 | As written, a backend product with quantity 0 shows neither "Out of Stock" nor "Only N left". |
| `ProductCard.ShowLowBadgeFixed` | ecommerce-frontend/src/components/ProductCard.jsx:84-88 | Corrected badge on `quantity ?? stock`: it shows iff that value is between 1 and 5. |
| `ProductCard.ShowOutOfStockFixed` | ecommerce-frontend/src/components/ProductCard.jsx:89-93 | Corrected badge: it shows iff `quantity ?? stock` is exactly 0. |
| `ProductCard.FixedBadgesFollowQuantity` | ecommerce-frontend/src/components/ProductCard.jsx:24-33 | With the correction, a backend product is out of stock iff its quantity is 0 and low iff the quantity is 1 to 5. The badges stay exclusive, and they agree with the code as written whenever the quantity is not 0. |
| `ProductCard.ShowOriginalPrice` | ecommerce-frontend/src/components/ProductCard.jsx:52-56 | The struck-through price shows only when an original price is present and above the price. An original price of 0 never shows. |
| `ProductCard.OriginalPriceWhenHigher` | ecommerce-frontend/src/components/ProductCard.jsx:52 | For a non-negative price, the original price shows iff it is present and higher. |
| `ProductCard.ImageSrc` | ecommerce-frontend/src/components/ProductCard.jsx:16-17 | The card image is the card placeholder for a missing path, else the resolved URL. |
| `AdminProducts.HandleImageChange` | ecommerce-frontend/src/pages/admin/AdminProducts.jsx:106-131 | No file changes nothing. A type outside the five MIME types sets the type error, checked before the size. A file over 5 MiB sets the size error. Only a valid file is selected. |
| `AdminProducts.SelectedIffValid` | ecommerce-frontend/src/pages/admin/AdminProducts.jsx:110-122 | A newly picked file is selected iff its type is allowed and it is at most 5 MiB. A PNG of exactly 5 MiB is accepted. |
| `Wrappers.OrNull` | ecommerce-frontend/src/pages/admin/AdminProducts.jsx:191-192 | An empty string becomes null and any other string is kept; the review form sends its title and comment the same way. |
| `AdminProducts.ImageFor` | ecommerce-frontend/src/pages/admin/AdminProducts.jsx:178-184 | The new upload wins. Otherwise the edited product's existing image is used, and otherwise the image is null. The result is never an empty string. |
| `AdminProducts.Payload` | ecommerce-frontend/src/pages/admin/AdminProducts.jsx:186-194 | An empty category or SKU is sent as null, and a non-empty one is kept. The image follows `ImageFor`, and the other fields are copied from the form. |
| `AdminProducts.EditKeepsImage` | ecommerce-frontend/src/pages/admin/AdminProducts.jsx:181-197 | Saving an edit without a new file keeps the product's image and its active flag in the backend. |
| `AdminProducts.Toggle` | ecommerce-frontend/src/pages/admin/AdminProducts.jsx:226-229 | `is_active` is flipped and every other field is resent unchanged. |
| `AdminProducts.ToggleThroughBackend` | ecommerce-frontend/src/pages/admin/AdminProducts.jsx:224-235 | Through the backend's partial update, the toggle changes that product's `is_active` and nothing else. Toggling twice restores the table. |
| `AdminProducts.AdminFilter` | ecommerce-frontend/src/pages/admin/AdminProducts.jsx:237-241 | A product is kept iff its name, its non-null category or its non-null SKU contains the term, case-insensitively. |
| `AdminProducts.AdminFilterLaws` | ecommerce-frontend/src/pages/admin/AdminProducts.jsx:237-241 | An empty term keeps every product, in order. For a product with no category and no SKU, only the name can match. |
| `AdminProducts.LowStockMarker` | ecommerce-frontend/src/pages/admin/AdminProducts.jsx:349-355 | The marker shows iff the quantity is below 10. |
| `AdminProducts.MarkerMatchesBackendFilter` | ecommerce-frontend/src/pages/admin/AdminProducts.jsx:353 | The marker agrees with the backend's `low_stock` list filter, and toggling a product's status does not change it. |
| `AdminOrders.FilterOrders` | ecommerce-frontend/src/pages/admin/AdminOrders.jsx:63-71 | An order is kept iff it passes the status filter (empty or equal) and the search. The search matches when it is empty, when it is part of the id's decimal string, or when it is part of the username or email, ignoring case. |
| `AdminOrders.FilterOrdersLaws` | ecommerce-frontend/src/pages/admin/AdminOrders.jsx:63 | The kept orders are a subsequence of the list, in order. With no filters every order is kept. |
| `AdminOrders.IdSearchFindsOrder` | ecommerce-frontend/src/pages/admin/AdminOrders.jsx:66 | Searching for an order's id always finds that order. |
| `AdminOrders.StatusColor` | ecommerce-frontend/src/pages/admin/AdminOrders.jsx:52-61 | Each of the five statuses gets its own colour classes. |
| `AdminOrders.StatusColorTotal` | ecommerce-frontend/src/pages/admin/AdminOrders.jsx:52-61 | A status gets a colour other than the gray default iff it is the value of some backend order status. Distinct statuses get distinct colours. |
| `AdminOrders.EmptyStateIffNoMatch` | ecommerce-frontend/src/pages/admin/AdminOrders.jsx:63-71 | Once loading has finished, the empty state shows iff no order passes the filters. |
| `AdminApi.Patched` | app/routes/admin.py:122-123 | A field that was sent takes the sent value, and an unsent field keeps its value. |
| `AdminApi.DeleteUser` | app/routes/admin.py:129-148 | An unknown id gives 404 and deleting yourself gives 400. Otherwise only `is_active` of that user becomes false, and every record is kept. |
| `AdminApi.DeleteUserIdempotent` | app/routes/admin.py:145 | Deactivating an account a second time gives the same table. |
| `AdminApi.ApplyUserPatch` | app/routes/admin.py:122-123 | Each patchable field of the user takes the sent value or keeps its own, and the password hash is never patched. |
| `AdminApi.UpdateUser` | app/routes/admin.py:110-127 | An unknown id gives 404. A patch that sets a username or email another account holds gives 500: the columns are unique (app/models.py:22-23) and the route does not catch the commit's `IntegrityError`. Otherwise that user is patched and no other user changes. |
| `AdminApi.UpdateUserKeepsAccountsUnique` | app/models.py:22-23 | A successful update of a table with unique usernames and emails leaves them unique. |
| `AdminApi.UserPatchLaws` | app/routes/admin.py:122-126 | An empty patch changes nothing, and a patch that succeeded once succeeds again with the same result. |
| `AdminApi.CreateAdminUser` | app/routes/admin.py:77-108 | The request is refused with 400 iff the username or the email is already taken. Otherwise a new active user with the hashed password is added under a fresh id, and existing users are untouched. |
| `AdminApi.CreateAdminUserKeepsAccountsUnique` | app/routes/admin.py:85-108 | Because a taken username or email is refused, creating an account keeps usernames and emails unique. |
| `AdminApi.CreateAdminUserOnce` | app/routes/admin.py:85-91 | After a creation, a request that repeats the username or the email is refused. |
| `AdminApi.DeleteProduct` | app/routes/admin.py:209-222 | An unknown id gives 404. Otherwise only `is_active` of that product becomes false, and every record is kept. |
| `AdminApi.ApplyProductPatch` | app/routes/admin.py:202-203 | Each product field takes the sent value or keeps its own. |
| `AdminApi.UpdateProduct` | app/routes/admin.py:190-207 | An unknown id gives 404. Otherwise that product is patched and no other product changes. |
| `AdminApi.ProductPatchLaws` | app/routes/admin.py:202-203 | An empty patch changes nothing, and sending the same patch twice is the same as once. |
| `AdminApi.DeleteIsDeactivatingUpdate` | app/routes/admin.py:215-222 | The soft delete is the same as an update that sends only `is_active: false`. |
| `AdminApi.UpdateOrderStatus` | app/routes/admin.py:257-271 | An unknown order gives 404. Otherwise that order's status is set and nothing else changes. |
| `AdminApi.NoTransitionRule` | app/routes/admin.py:268 | Any status can follow any other: setting a new status and then the old one restores the table. |
| `AdminApi.ListUsers` | app/routes/admin.py:54-75 | The page holds `min(limit, n - skip)` rows (none when `skip >= n`), where `n` counts the matching users. Each is a stored user matching the search (username or email, ignoring case) and the role, in ascending id order. |
| `AdminApi.ListProducts` | app/routes/admin.py:151-176 | The page holds `min(limit, n - skip)` rows, where `n` counts the matching products. Each is a stored product matching the search, the category and, when asked, the low-stock filter, in ascending id order. Inactive products are listed too. |
| `AdminApi.ListOrders` | app/routes/admin.py:225-243 | The page holds `min(limit, n - skip)` rows, where `n` counts the matching orders. Each is a stored order with the given status and user, in ascending id order; a user id of 0 does not filter. |
| `AdminApi.ListsAreComplete` | app/routes/admin.py:63-75 | A page from offset 0 with a limit covering the table lists every matching user, product and order. |
| `AdminApi.ListingsPageThrough` | app/routes/admin.py:74 | For every offset, the page at `skip + a` continues the page at `skip` of size `a` exactly where it stopped. Reading page by page therefore lists every matching user, product and order once. |
| `AdminApi.ProductFiltersCompose` | app/routes/admin.py:163-175 | The filters combine conjunctively before the offset and limit apply: filtering by search and then by category and stock gives the same page. |
| `AdminApi.LowStockListSize` | app/routes/admin.py:172-173 | The unpaged `low_stock` listing has one row per product with quantity below 10. |
| `AdminApi.DashboardVersusLowStockList` | app/routes/admin.py:38-42 | The dashboard's low-stock count never exceeds the `low_stock` listing. It falls short of it iff some deactivated product is low on stock, because only the dashboard requires `is_active`. |
| `Tables.Page` | app/routes/admin.py:74 | `.offset(skip).limit(limit)`: at most `limit` elements, taken in order starting at `skip`, and empty past the end. |
| `Register.Validate` | ecommerce-frontend/src/pages/Register.jsx:19-39 | No error iff username, email and password are non-blank, the passwords match and the password has at least 6 characters. Any error is one of the five messages. |
| `Register.FirstFailureWins` | ecommerce-frontend/src/pages/Register.jsx:20-39 | Each message is reported iff its test fails and every earlier test passes, in the order username, email, password, mismatch, length. |
| `Register.WhitespacePasswordIsRequired` | ecommerce-frontend/src/pages/Register.jsx:28-31 | A password of only whitespace is reported as required. |
| `Register.ShortMismatchReportsMismatch` | ecommerce-frontend/src/pages/Register.jsx:32-39 | A short password that does not match its confirmation is reported as a mismatch, not as too short. |
| `Register.LengthBoundary` | ecommerce-frontend/src/pages/Register.jsx:36 | The length counts the untrimmed password: six characters with surrounding spaces pass, while five characters are too short. |
| `Register.ErrorMessage` | ecommerce-frontend/src/pages/Register.jsx:51-59 | 422 gives the fixed input message. 400 gives the detail, else "Username already exists". Any other failure gives the detail, else the error's message, else the fallback. The message is never empty. |
| `Register.DetailShownUnless422` | ecommerce-frontend/src/pages/Register.jsx:51-59 | A server detail is shown for every status except 422, and every message is one of the fixed texts, the detail or the error's message. |
| `Register.Submit` | ecommerce-frontend/src/pages/Register.jsx:15-63 | `register` is called iff validation passes. The page goes to login iff the call succeeds, and the banner is empty exactly then; otherwise it shows the validation or server message. |
| `Uploads.LastIndex` | app/routes/uploads.py:22-23 | The position of the last occurrence of a character, or -1 when it does not occur. |
| `Uploads.BaseName` | app/routes/uploads.py:22-23 | The file name part of a path is its longest suffix with no `/` in it: either the whole path, or what follows a `/`. |
| `Uploads.BaseNameFollowsSlash` | app/routes/uploads.py:22-23 | When the base name is shorter than the path, the character right before it is a `/`. |
| `Uploads.Suffix` | app/routes/uploads.py:22-23 | `Path.suffix`: empty, or a tail of the name that starts with its only dot, has at least one character after the dot and is shorter than the name. |
| `Uploads.Extension` | app/routes/uploads.py:22-23 | The extension is the lower-cased suffix of the base name and has no upper-case letters. |
| `Uploads.ExtensionIgnoresCase` | app/routes/uploads.py:25-26 | Changing a file name's case does not change its extension or whether it is allowed. |
| `Uploads.ExtensionShape` | app/routes/uploads.py:22-23 | An extension is empty or a dot followed by at least one character, with no further dot and no `/`. |
| `Uploads.ExtensionOf` | app/routes/uploads.py:22-23 | For a plain name ending in `.ext` with no later dot, the extension is `.ext` lower-cased: only the last dot counts. |
| `Uploads.DotAtEitherEndIsNoExtension` | app/routes/uploads.py:22-26 | A name whose only dot leads it, or one ending in a dot, has no extension and is refused. |
| `Uploads.UploadImage` | app/routes/uploads.py:28-60 | The upload succeeds iff the extension is allowed and the content is at most 5 MiB. A disallowed type is refused with the listing of allowed types; the type is examined before the size. A success stores uuid plus extension under `/static/products/` and reports the byte count. A failure stores nothing. |
| `Uploads.SizeLimitInclusive` | app/routes/uploads.py:41-42 | For an allowed file, exactly 5 MiB is accepted and one byte more is refused as too large. |
| `Uploads.TypeCheckedFirst` | app/routes/uploads.py:33-42 | A file that is both of the wrong type and too large is refused for its type. |
| `Uploads.StoredNameKeepsExtension` | app/routes/uploads.py:45-46 | The stored name has the extension of the uploaded name. |
| `Uploads.StoredUrlResolves` | app/routes/uploads.py:54 | The returned URL, resolved by the storefront, is the backend origin followed by the URL. |
| `Uploads.DeleteImage` | app/routes/uploads.py:62-73 | A missing file gives 404 and no change. An existing file is removed. |
| `Uploads.UploadThenDelete` | app/routes/uploads.py:28-73 | Deleting a just-uploaded image succeeds and restores the directory. Before the upload, that name was not found. |
| `Reviews.CreateReview` | app/routes/reviews.py:15-48 | It succeeds iff the product exists and the user has not reviewed it. An unknown product gives 404 and a repeated review 400, both without change. A new review carries the caller, the product, the rating, the title and the comment. |
| `Reviews.CreateKeepsOnePerPair` | app/routes/reviews.py:28-35 | Creation keeps at most one review per user and product, and a second create for the same pair is refused. |
| `Reviews.UpdateReview` | app/routes/reviews.py:167-197 | A missing review gives 404 and another user's review 403, both without change. It succeeds iff the caller is the author. Only the sent fields change, and author, product, approval and date are kept. |
| `Reviews.UpdateLaws` | app/routes/reviews.py:184-186 | Updates keep one review per user and product, and an empty update changes nothing. |
| `Reviews.DeleteReview` | app/routes/reviews.py:199-218 | A missing review gives 404 and another user's review 403, both without change. The author's delete removes that review and only it. |
| `Reviews.DeleteThenReviewAgain` | app/routes/reviews.py:15-218 | After deleting their review, the author may review the product again. |
| `Reviews.Mean` | app/routes/reviews.py:134-141 | The average is 0 when there are no reviews, and otherwise times the count gives the sum of ratings. |
| `Reviews.Distribution` | app/routes/reviews.py:143-151 | The distribution has the keys 1 to 5, each counting the approved reviews of the product with that rating. |
| `Reviews.ReviewSummary` | app/routes/reviews.py:118-160 | An unknown product gives 404. The total counts the approved reviews of the product, the distribution counts them per rating, and the average is their mean rating (0 when there are none). |
| `Reviews.CountSplitsByRating` | app/routes/reviews.py:132-151 | The approved reviews split into the five ratings plus those outside 1 to 5. |
| `Reviews.DistributionAddsUp` | app/routes/reviews.py:132-151 | The distribution sums to at most the total, and to exactly the total iff every approved rating of the product lies in 1 to 5. |
| `Reviews.NewerIsTotalPreorder` | app/routes/reviews.py:86 | Ordering by creation date, newest first, is a total preorder. |
| `Reviews.NewestFirst` | app/routes/reviews.py:83-86 | The listing before paging is a permutation of the product's approved reviews, newest first. |
| `Reviews.ListReviews` | app/routes/reviews.py:67-111 | An unknown product gives 404. Otherwise the page holds `min(limit, n - skip)` reviews, where `n` counts the product's approved reviews. Entry `i` is entry `skip + i` of the newest-first list, so every entry is an approved review of the product. |
| `Reviews.ReviewPagesConcatenate` | app/routes/reviews.py:83-88 | For every offset, the page at `skip + a` continues the page at `skip` of size `a` exactly where it stopped. |
| `Reviews.ListingIsComplete` | app/routes/reviews.py:83-86 | From offset 0 with a limit covering the store, the listing holds exactly the product's approved reviews. |
| `ProductReviews.Stars` | ecommerce-frontend/src/components/ProductReviews.jsx:10-24 | Exactly five stars. Star i (1-based) is filled iff i is at most the hover value, or the rating when not hovering. |
| `ProductReviews.StarsFilledPrefix` | ecommerce-frontend/src/components/ProductReviews.jsx:10-24 | The filled stars are a prefix, and their number is the shown value clamped to 0 to 5. |
| `ProductReviews.Payload` | ecommerce-frontend/src/components/ProductReviews.jsx:70-75 | The request carries the product id, the rating, and the title and comment with empty text as null. |
| `ProductReviews.HandleSubmit` | ecommerce-frontend/src/components/ProductReviews.jsx:53-99 | A request is sent iff a user is signed in and a rating is chosen. The login error comes before the rating error. Success resets the form, and failure shows the detail or the fallback. |
| `ProductReviews.ButtonAndHandlerAgree` | ecommerce-frontend/src/components/ProductReviews.jsx:56-82 | An enabled button submitted by a signed-in user sends a request, and a successful submit disables the button again. |
| `ProductReviews.PostedReviewIsStored` | ecommerce-frontend/src/components/ProductReviews.jsx:70-77 | A submitted form that the backend accepts is stored with its rating and product. Its title and comment are null exactly when left empty. |
| `ProductReviews.DistributionCount` | ecommerce-frontend/src/components/ProductReviews.jsx:249 | A rating missing from the distribution counts as 0. |
| `ProductReviews.BarsShowBackendCounts` | ecommerce-frontend/src/components/ProductReviews.jsx:248-249 | Each of the five bars shows the backend's count of approved reviews with that rating, and any other rating shows 0. |
| `Notifications.UnreadCount` | ecommerce-frontend/src/pages/Notifications.jsx:94 | The unread count is at most the list length, and is 0 iff every entry is read. |
| `Notifications.MarkAsRead` | ecommerce-frontend/src/pages/Notifications.jsx:43-47 | Entries with the id become read. Every other entry and the length are unchanged. |
| `Notifications.MarkAsReadLaws` | ecommerce-frontend/src/pages/Notifications.jsx:43-47 | Marking is idempotent, and the unread count falls by the number of unread entries with that id. |
| `Notifications.MarkAllAsRead` | ecommerce-frontend/src/pages/Notifications.jsx:49-51 | Every entry becomes read and nothing else changes. |
| `Notifications.MarkAllLaws` | ecommerce-frontend/src/pages/Notifications.jsx:49-51 | After marking all, the unread count is 0, the mark-all button is hidden, and marking all again changes nothing. |
| `Notifications.DeleteNotification` | ecommerce-frontend/src/pages/Notifications.jsx:53-55 | The entries kept are exactly those with another id. |
| `Notifications.DeleteLaws` | ecommerce-frontend/src/pages/Notifications.jsx:53-55 | The kept entries are a subsequence of the list, in order, and none has the id. Marking an entry before deleting it makes no difference. |
| `Notifications.DeleteAfterMark` | ecommerce-frontend/src/pages/Notifications.jsx:43-55 | Marking an id as read does not change the other entries that a delete of that id keeps. |
| `Notifications.ShowMarkAll` | ecommerce-frontend/src/pages/Notifications.jsx:106 | The mark-all button shows iff some entry is unread. |
| `Notifications.MarkButtonsAgree` | ecommerce-frontend/src/pages/Notifications.jsx:106-145 | The mark-all button shows iff some entry shows its own "Mark as Read" button, and marking an entry read hides that entry's button. |
| `Notifications.InitialUnread` | ecommerce-frontend/src/pages/Notifications.jsx:6-31 | The initial list has one unread entry, so the mark-all button shows. |
| `Profile.DeriveFullName` | ecommerce-frontend/src/pages/Profile.jsx:24-29 | A non-empty `full_name` wins. Otherwise the name is first and last name joined by a space and trimmed, which is empty when both are missing. |
| `Profile.NameFromPartsIsTrimmed` | ecommerce-frontend/src/pages/Profile.jsx:27-29 | A name built from its parts neither starts nor ends with whitespace. |
| `Profile.NameFromOnePart` | ecommerce-frontend/src/pages/Profile.jsx:27-29 | With only a first name, or only a last name, the name is that part trimmed. |
| `Profile.DeriveMobile` | ecommerce-frontend/src/pages/Profile.jsx:32-37 | The mobile is `mobile` when non-empty, else `phone`, else empty. |
| `Profile.MobileFilledIffKnown` | ecommerce-frontend/src/pages/Profile.jsx:32-37 | The form's mobile field is non-empty iff the user has a non-empty `mobile` or `phone`. |
| `Profile.FormFor` | ecommerce-frontend/src/pages/Profile.jsx:39-43 | The form holds the derived name, the email or empty, and the derived mobile. |
| `Profile.HandleCancel` | ecommerce-frontend/src/pages/Profile.jsx:123-146 | Cancel recomputes the form as loading does, leaves edit mode and clears the message. |
| `Profile.CancelDiscardsEdits` | ecommerce-frontend/src/pages/Profile.jsx:123-146 | The result of cancel does not depend on the edits made before it, and cancelling twice is the same as once. |
| `Profile.AvatarInitial` | ecommerce-frontend/src/pages/Profile.jsx:174-177 | The initial is never a lower-case letter. |
| `Profile.AvatarUsesDerivedName` | ecommerce-frontend/src/pages/Profile.jsx:174-177 | The initial is the upper-cased first character of the first non-empty of: derived name, email, username, and `U`. |
| `Profile.RoleLabel` | ecommerce-frontend/src/pages/Profile.jsx:276 | `admin` reads Administrator, `super_admin` reads Super Admin, and anything else reads Customer. |
| `Profile.RoleLabelMatchesRoles` | ecommerce-frontend/src/pages/Profile.jsx:276 | Each backend role gets its own label, and the label is Customer iff the admin guard refuses the role. |

## Left out

- Network calls, `localStorage`, React effects and rendering, `alert`, `confirm` and navigation: a backend outcome is a parameter (`Write`, `Checkout`, `Option<Failure>`, a fetched response), and saved state is an `Option`.
- Concurrency: overlapping cart requests from rapid clicks are not modelled; each operation sees the state the previous one left.
- Floating point: prices and quantities are integers (minor units). The review average is an exact `real`, not a SQL `avg` rounded to a float. `parseFloat`/`parseInt` of form fields are taken as already parsed.
- Text: case mapping is ASCII only, lengths count `char`s rather than UTF-16 code units, and `localeCompare` is code-point lexicographic order.
- SQL `ilike` wildcards (`%`, `_` inside the search term) are treated as literal characters; an order-less query returns rows in ascending id order.
- Negative `skip` or `limit` are not modelled (both are `nat`).
- Ids, the clock, uuids and the bcrypt hash are parameters. The lemmas about stored upload names take a uuid with no dot or slash, as `uuid4()` renders it.
- `Uploads.UploadImage`: Python's set iteration order in the "allowed types" detail is a parameter (any ordering of the five extensions).
- `Uploads.BaseName`: `pathlib` normalisation (trailing slashes, `.` components, Windows separators) is not modelled; the base name is the text after the last `/`.
- `Uploads.DeleteImage`: the 500 raised when `os.remove` fails is not modelled, and neither is the file content on disk (the directory is a set of names).
- `Reviews.ListReviews`: the catch-all 500 wrapper and the `user` sub-object of each review (looked up from the users table) are not modelled.
- `Reviews.ReviewSummary`: the distribution keys are integers, where the route uses the strings "1" to "5"; the frontend looks them up with integer keys, which JavaScript converts.
- `get_user_reviews` (app/routes/reviews.py:220-246) and `updated_at` timestamps are not modelled.
- The rating range is not checked by the review routes; the model carries any integer rating, as they do.
- The `Review` table and the `ReviewCreate`/`ReviewUpdate`/`UserUpdate`/`ProductUpdate` schemas are not part of this model's sources; their fields follow their use in the routes.
- `create_product`, the dashboard's other counters, and the analytics route of app/routes/admin.py are not modelled; only the dashboard's low-stock count is.
- `ProductCard`: the name/title fallback, the description and the star rating display are rendering only.
- `Notifications`: the icon lookup per notification type is rendering only.
- Products.jsx uses an undefined `setSearchTerm` (lines 139 and 180); the model takes the search term from the URL as the page does on load.
- Authorisation: the admin router's `require_admin` dependency (app/routes/admin.py:13) and the `require_super_admin` dependency of `create_admin_user` (app/routes/admin.py:81) are not modelled. Every `AdminApi` member (`AdminApi.DeleteUser`, `AdminApi.UpdateUser`, `AdminApi.CreateAdminUser`, `AdminApi.DeleteProduct`, `AdminApi.UpdateProduct`, `AdminApi.UpdateOrderStatus`, the listings and the dashboard count) describes a call that has passed them. Their 401 and 403 answers come from app/auth.py, which is not part of this model.
- `AdminApi.UpdateProduct`: a sku another product already holds is written without error. The `sku` column is declared unique in app/models.py:48, but migrate_db.py:51 adds it without a UNIQUE constraint, so the database does not reject it.
- There is no login-time merge of a guest cart: the cart is replaced by the backend's, as `CartContext.LoadReplaces` states.

## Findings

| source | as written | input that shows it | evidently intended | confidence | as-written member | corrected member |
|---|---|---|---|---|---|---|
| app/crud.py:82 | `update_user` calls `get_user_by_id`, which the module never defines, so every call raises `NameError` | any user id and any update, e.g. an existing user and a new username | look the user up by id (as `get_product_by_id` does for products), 404 when missing | not executed | `Crud.UpdateUserAsWrittenFails` | `Crud.UpdateUser` |
| ecommerce-frontend/src/components/ProductCard.jsx:29 | the out-of-stock test compares the logical or of `quantity` and `stock` with 0 | a backend product with `quantity: 0` and no `stock` field: the or yields `undefined`, so "Out of Stock" is not shown (same at line 89) | test the quantity with `??` so that a quantity of 0 shows "Out of Stock" | not executed | `ProductCard.SoldOutRecordShowsNoBadge` | `ProductCard.FixedBadgesFollowQuantity` |
