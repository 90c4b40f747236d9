/** The admin routes (`app/routes/admin.py`) over the user, product and
    order tables: soft deletes, partial updates, admin creation, status
    changes, the dashboard's low-stock figure and the filtered listings. */
module AdminApi {
  import opened Wrappers
  import opened Text
  import opened Seqs
  import opened Tables
  import opened Records

  const UserNotFound: HttpError := HttpError(404, "User not found")
  const ProductNotFound: HttpError := HttpError(404, "Product not found")
  const OrderNotFound: HttpError := HttpError(404, "Order not found")
  const CannotDeleteSelf: HttpError := HttpError(400, "Cannot delete own account")
  const UserExists: HttpError := HttpError(400, "User already exists")
  /** An exception the route does not catch, as the server reports it. */
  const InternalError: HttpError := HttpError(500, "Internal Server Error")

  /** The field a patch writes: `v` when the field was sent, the old value
      when it was left out (`exclude_unset`). A nullable field is an
      `Option<Option<_>>`, so an explicit null is a sent value. */
  function Patched<T>(sent: Option<T>, current: T): (r: T)
    ensures sent.None? ==> r == current
    ensures sent.Some? ==> r == sent.value
  {
    if sent.Some? then sent.value else current
  }

  // ---------------------------------------------------------------------
  // Users

  /** `DELETE /admin/users/{id}`: deactivation, never removal. */
  function DeleteUser(users: map<int, User>, id: int, currentId: int): (r: Result<map<int, User>, HttpError>)
    ensures id !in users ==> r == Err(UserNotFound)
    ensures id in users && id == currentId ==> r == Err(CannotDeleteSelf)
    ensures id in users && id != currentId ==> r.Ok?
    ensures r.Ok? ==> r.value.Keys == users.Keys
    ensures r.Ok? ==> !r.value[id].isActive && r.value[id].(isActive := users[id].isActive) == users[id]
    ensures r.Ok? ==> forall k :: k in users && k != id ==> r.value[k] == users[k]
  {
    if id !in users then Err(UserNotFound)
    else if id == currentId then Err(CannotDeleteSelf)
    else Ok(users[id := users[id].(isActive := false)])
  }

  /** Deactivating an account twice is the same as once. */
  lemma DeleteUserIdempotent(users: map<int, User>, id: int, currentId: int)
    requires DeleteUser(users, id, currentId).Ok?
    ensures DeleteUser(DeleteUser(users, id, currentId).value, id, currentId) == DeleteUser(users, id, currentId)
  {
    var once := DeleteUser(users, id, currentId).value;
    assert once[id := once[id].(isActive := false)] == once;
  }

  /** `UserUpdate` with only the fields the request sent. */
  datatype UserPatch = UserPatch(
    username: Option<string>,
    email: Option<string>,
    role: Option<Role>,
    isActive: Option<bool>,
    firstName: Option<Option<string>>,
    lastName: Option<Option<string>>,
    phone: Option<Option<string>>,
    address: Option<Option<string>>)

  const NoUserChange: UserPatch := UserPatch(None, None, None, None, None, None, None, None)

  function ApplyUserPatch(u: User, p: UserPatch): (r: User)
    ensures r.hashedPassword == u.hashedPassword
    ensures r.username == Patched(p.username, u.username) && r.email == Patched(p.email, u.email)
    ensures r.role == Patched(p.role, u.role) && r.isActive == Patched(p.isActive, u.isActive)
    ensures r.firstName == Patched(p.firstName, u.firstName) && r.lastName == Patched(p.lastName, u.lastName)
    ensures r.phone == Patched(p.phone, u.phone) && r.address == Patched(p.address, u.address)
  {
    User(Patched(p.username, u.username), Patched(p.email, u.email), u.hashedPassword,
         Patched(p.role, u.role), Patched(p.isActive, u.isActive),
         Patched(p.firstName, u.firstName), Patched(p.lastName, u.lastName),
         Patched(p.phone, u.phone), Patched(p.address, u.address))
  }

  /** A patch that writes a username or an email another account holds:
      the unique columns make the commit raise `IntegrityError`. */
  predicate PatchClashes(users: map<int, User>, id: int, patch: UserPatch) {
    || (patch.username.Some? && UsernameTaken(users, id, patch.username.value))
    || (patch.email.Some? && EmailTaken(users, id, patch.email.value))
  }

  /** `PUT /admin/users/{id}`: 404 for an unknown id; a clash with another
      account's username or email is not caught and reaches the client as
      a 500; otherwise the patch is written. */
  function UpdateUser(users: map<int, User>, id: int, patch: UserPatch): (r: Result<map<int, User>, HttpError>)
    ensures id !in users <==> r == Err(UserNotFound)
    ensures id in users && PatchClashes(users, id, patch) <==> r == Err(InternalError)
    ensures r.Ok? ==> r.value.Keys == users.Keys && r.value[id] == ApplyUserPatch(users[id], patch)
    ensures r.Ok? ==> forall k :: k in users && k != id ==> r.value[k] == users[k]
  {
    if id !in users then Err(UserNotFound)
    else if PatchClashes(users, id, patch) then Err(InternalError)
    else Ok(users[id := ApplyUserPatch(users[id], patch)])
  }

  /** A successful update keeps the table within its unique constraints. */
  lemma UpdateUserKeepsAccountsUnique(users: map<int, User>, id: int, patch: UserPatch)
    requires UniqueAccounts(users)
    requires UpdateUser(users, id, patch).Ok?
    ensures UniqueAccounts(UpdateUser(users, id, patch).value)
  {
    var after := UpdateUser(users, id, patch).value;
    forall j, k | j in after && k in after && j != k
      ensures after[j].username != after[k].username && after[j].email != after[k].email
    {
      assert !UsernameTaken(users, j, users[j].username) && !EmailTaken(users, j, users[j].email);
      assert !UsernameTaken(users, k, users[k].username) && !EmailTaken(users, k, users[k].email);
      assert !PatchClashes(users, id, patch);
    }
  }

  /** A patch that sends nothing changes nothing; sending the same patch
      twice is the same as sending it once. */
  lemma UserPatchLaws(users: map<int, User>, id: int, patch: UserPatch)
    requires id in users
    ensures UpdateUser(users, id, NoUserChange) == Ok(users)
    ensures UpdateUser(users, id, patch).Ok? ==>
      UpdateUser(UpdateUser(users, id, patch).value, id, patch) == UpdateUser(users, id, patch)
  {
    assert users[id := users[id]] == users;
    if UpdateUser(users, id, patch).Ok? {
      var once := UpdateUser(users, id, patch).value;
      assert !PatchClashes(once, id, patch);
      assert once[id := ApplyUserPatch(once[id], patch)] == once;
    }
  }

  /** `AdminUserCreate` */
  datatype NewAdmin = NewAdmin(
    username: string,
    email: string,
    password: string,
    role: Role,
    firstName: Option<string>,
    lastName: Option<string>,
    phone: Option<string>)

  predicate Taken(users: map<int, User>, username: string, email: string) {
    exists k :: k in users && (users[k].username == username || users[k].email == email)
  }

  /** `POST /admin/users`: refused when the username or the email is in
      use; otherwise an active account with the hashed password. */
  function CreateAdminUser(users: map<int, User>, freshId: int, data: NewAdmin, hash: string -> string)
    : (r: Result<map<int, User>, HttpError>)
    requires freshId !in users
    ensures Taken(users, data.username, data.email) <==> r == Err(UserExists)
    ensures r.Ok? ==> r.value.Keys == users.Keys + {freshId}
    ensures r.Ok? ==> forall k :: k in users ==> r.value[k] == users[k]
    ensures r.Ok? ==> r.value[freshId] == User(data.username, data.email, hash(data.password), data.role, true,
                                               data.firstName, data.lastName, data.phone, None)
  {
    if Taken(users, data.username, data.email) then Err(UserExists)
    else Ok(users[freshId := User(data.username, data.email, hash(data.password), data.role, true,
                                  data.firstName, data.lastName, data.phone, None)])
  }

  /** Once created, the same request is refused, and so is any request
      reusing either the name or the address. */
  lemma CreateAdminUserOnce(users: map<int, User>, id1: int, id2: int, data: NewAdmin, other: NewAdmin,
                            hash: string -> string)
    requires id1 !in users && id2 !in users && id1 != id2
    requires CreateAdminUser(users, id1, data, hash).Ok?
    requires other.username == data.username || other.email == data.email
    ensures CreateAdminUser(CreateAdminUser(users, id1, data, hash).value, id2, other, hash) == Err(UserExists)
  {
    var after := CreateAdminUser(users, id1, data, hash).value;
    assert id1 in after && (after[id1].username == other.username || after[id1].email == other.email);
  }

  /** The `Taken` check keeps the table within its unique constraints. */
  lemma CreateAdminUserKeepsAccountsUnique(users: map<int, User>, freshId: int, data: NewAdmin, hash: string -> string)
    requires freshId !in users && UniqueAccounts(users)
    requires CreateAdminUser(users, freshId, data, hash).Ok?
    ensures UniqueAccounts(CreateAdminUser(users, freshId, data, hash).value)
  {
    var after := CreateAdminUser(users, freshId, data, hash).value;
    forall j, k | j in after && k in after && j != k
      ensures after[j].username != after[k].username && after[j].email != after[k].email
    {
      if j != freshId && k != freshId {
        assert !UsernameTaken(users, j, users[j].username) && !EmailTaken(users, j, users[j].email);
      }
    }
  }

  // ---------------------------------------------------------------------
  // Products

  /** `DELETE /admin/products/{id}`: deactivation, never removal. */
  function DeleteProduct(products: map<int, Product>, id: int): (r: Result<map<int, Product>, HttpError>)
    ensures id !in products <==> r == Err(ProductNotFound)
    ensures r.Ok? ==> r.value.Keys == products.Keys
    ensures r.Ok? ==> !r.value[id].isActive && r.value[id].(isActive := products[id].isActive) == products[id]
    ensures r.Ok? ==> forall k :: k in products && k != id ==> r.value[k] == products[k]
  {
    if id !in products then Err(ProductNotFound)
    else Ok(products[id := products[id].(isActive := false)])
  }

  /** `ProductUpdate` with only the fields the request sent. */
  datatype ProductPatch = ProductPatch(
    name: Option<string>,
    description: Option<string>,
    price: Option<int>,
    quantity: Option<int>,
    image: Option<Option<string>>,
    category: Option<Option<string>>,
    sku: Option<Option<string>>,
    isActive: Option<bool>)

  const NoProductChange: ProductPatch := ProductPatch(None, None, None, None, None, None, None, None)

  function ApplyProductPatch(p: Product, patch: ProductPatch): (r: Product)
    ensures r.name == Patched(patch.name, p.name) && r.description == Patched(patch.description, p.description)
    ensures r.price == Patched(patch.price, p.price) && r.quantity == Patched(patch.quantity, p.quantity)
    ensures r.image == Patched(patch.image, p.image) && r.category == Patched(patch.category, p.category)
    ensures r.sku == Patched(patch.sku, p.sku) && r.isActive == Patched(patch.isActive, p.isActive)
  {
    Product(Patched(patch.name, p.name), Patched(patch.description, p.description),
            Patched(patch.price, p.price), Patched(patch.quantity, p.quantity),
            Patched(patch.image, p.image), Patched(patch.category, p.category),
            Patched(patch.sku, p.sku), Patched(patch.isActive, p.isActive))
  }

  /** `PUT /admin/products/{id}` */
  function UpdateProduct(products: map<int, Product>, id: int, patch: ProductPatch)
    : (r: Result<map<int, Product>, HttpError>)
    ensures id !in products <==> r == Err(ProductNotFound)
    ensures r.Ok? ==> r.value.Keys == products.Keys && r.value[id] == ApplyProductPatch(products[id], patch)
    ensures r.Ok? ==> forall k :: k in products && k != id ==> r.value[k] == products[k]
  {
    if id !in products then Err(ProductNotFound)
    else Ok(products[id := ApplyProductPatch(products[id], patch)])
  }

  lemma ProductPatchLaws(products: map<int, Product>, id: int, patch: ProductPatch)
    requires id in products
    ensures UpdateProduct(products, id, NoProductChange) == Ok(products)
    ensures UpdateProduct(UpdateProduct(products, id, patch).value, id, patch) == UpdateProduct(products, id, patch)
  {
    assert products[id := products[id]] == products;
    var once := UpdateProduct(products, id, patch).value;
    assert once[id := ApplyProductPatch(once[id], patch)] == once;
  }

  /** The soft delete is the partial update that sends `is_active: false`
      alone. */
  lemma DeleteIsDeactivatingUpdate(products: map<int, Product>, id: int)
    ensures DeleteProduct(products, id) ==
      UpdateProduct(products, id, NoProductChange.(isActive := Some(false)))
  {
  }

  // ---------------------------------------------------------------------
  // Orders

  /** `PUT /admin/orders/{id}/status`: any status may follow any other. */
  function UpdateOrderStatus(orders: map<int, Order>, id: int, status: OrderStatus)
    : (r: Result<map<int, Order>, HttpError>)
    ensures id !in orders <==> r == Err(OrderNotFound)
    ensures r.Ok? ==> r.value.Keys == orders.Keys
    ensures r.Ok? ==> r.value[id].status == status && r.value[id].(status := orders[id].status) == orders[id]
    ensures r.Ok? ==> forall k :: k in orders && k != id ==> r.value[k] == orders[k]
  {
    if id !in orders then Err(OrderNotFound)
    else Ok(orders[id := orders[id].(status := status)])
  }

  /** There is no transition rule: a delivered or cancelled order can be
      moved back to pending, and the round trip restores the table. */
  lemma NoTransitionRule(orders: map<int, Order>, id: int, s: OrderStatus)
    requires id in orders
    ensures var there := UpdateOrderStatus(orders, id, s).value;
      UpdateOrderStatus(there, id, orders[id].status) == Ok(orders)
  {
    var there := UpdateOrderStatus(orders, id, s).value;
    assert there[id := there[id].(status := orders[id].status)] == orders;
  }

  // ---------------------------------------------------------------------
  // Dashboard and listings

  /** `low_stock_products` of the dashboard: active products under the
      threshold. */
  function DashboardLowStock(products: map<int, Product>): (n: nat)
    ensures n <= |products|
  {
    Count(Rows(products), ActiveLowStock())
  }

  function ActiveLowStock(): Row<Product> -> bool {
    (r: Row<Product>) => r.value.isActive && IsLowStock(r.value.quantity)
  }

  /** `if search:` / `if category:` — a query parameter filters only when
      it is a non-empty string. */
  predicate Given(s: Option<string>) {
    s.Some? && s.value != ""
  }

  /** `ilike('%search%')`: case-insensitive containment. */
  predicate ILike(field: string, search: string) {
    ContainsIgnoreCase(field, search)
  }

  predicate UserMatches(u: User, search: Option<string>, role: Option<Role>) {
    && (Given(search) ==> ILike(u.username, search.value) || ILike(u.email, search.value))
    && (role.Some? ==> u.role == role.value)
  }

  /** `GET /admin/users` */
  function ListUsers(users: map<int, User>, skip: nat, limit: nat, search: Option<string>, role: Option<Role>)
    : (r: seq<Row<User>>)
    ensures var n := Count(Rows(users), UserFilter(search, role));
      |r| == if skip >= n then 0 else if n - skip < limit then n - skip else limit
    ensures forall x :: x in r ==> x.id in users && x.value == users[x.id]
    ensures forall x :: x in r ==> UserMatches(x.value, search, role)
    ensures AscendingIds(r)
  {
    Listing(users, UserFilter(search, role), skip, limit)
  }

  function UserFilter(search: Option<string>, role: Option<Role>): Row<User> -> bool {
    (x: Row<User>) => UserMatches(x.value, search, role)
  }

  predicate ProductMatches(p: Product, search: Option<string>, category: Option<string>, lowStock: bool) {
    && (Given(search) ==> ILike(p.name, search.value) || ILike(p.description, search.value))
    && (Given(category) ==> p.category == category)
    && (lowStock ==> IsLowStock(p.quantity))
  }

  /** `GET /admin/products`; inactive products are listed too. */
  function ListProducts(products: map<int, Product>, skip: nat, limit: nat,
                        search: Option<string>, category: Option<string>, lowStock: bool)
    : (r: seq<Row<Product>>)
    ensures var n := Count(Rows(products), ProductFilter(search, category, lowStock));
      |r| == if skip >= n then 0 else if n - skip < limit then n - skip else limit
    ensures forall x :: x in r ==> x.id in products && x.value == products[x.id]
    ensures forall x :: x in r ==> ProductMatches(x.value, search, category, lowStock)
    ensures AscendingIds(r)
  {
    Listing(products, ProductFilter(search, category, lowStock), skip, limit)
  }

  function ProductFilter(search: Option<string>, category: Option<string>, lowStock: bool): Row<Product> -> bool {
    (x: Row<Product>) => ProductMatches(x.value, search, category, lowStock)
  }

  /** `if user_id:` — an id of 0 is falsy and does not filter. */
  predicate OrderMatches(o: Order, status: Option<OrderStatus>, userId: Option<int>) {
    && (status.Some? ==> o.status == status.value)
    && (userId.Some? && userId.value != 0 ==> o.userId == userId.value)
  }

  /** `GET /admin/orders` */
  function ListOrders(orders: map<int, Order>, skip: nat, limit: nat, status: Option<OrderStatus>, userId: Option<int>)
    : (r: seq<Row<Order>>)
    ensures var n := Count(Rows(orders), OrderFilter(status, userId));
      |r| == if skip >= n then 0 else if n - skip < limit then n - skip else limit
    ensures forall x :: x in r ==> x.id in orders && x.value == orders[x.id]
    ensures forall x :: x in r ==> OrderMatches(x.value, status, userId)
    ensures AscendingIds(r)
  {
    Listing(orders, OrderFilter(status, userId), skip, limit)
  }

  function OrderFilter(status: Option<OrderStatus>, userId: Option<int>): Row<Order> -> bool {
    (x: Row<Order>) => OrderMatches(x.value, status, userId)
  }

  /** Completeness: a page starting at 0 that is large enough lists every
      record passing all filters, and each one once. */
  lemma ListsAreComplete(users: map<int, User>, products: map<int, Product>, orders: map<int, Order>,
                         limit: nat, search: Option<string>, role: Option<Role>, category: Option<string>,
                         lowStock: bool, status: Option<OrderStatus>, userId: Option<int>)
    requires limit >= |users| && limit >= |products| && limit >= |orders|
    ensures forall k :: k in users && UserMatches(users[k], search, role) ==>
      Row(k, users[k]) in ListUsers(users, 0, limit, search, role)
    ensures forall k :: k in products && ProductMatches(products[k], search, category, lowStock) ==>
      Row(k, products[k]) in ListProducts(products, 0, limit, search, category, lowStock)
    ensures forall k :: k in orders && OrderMatches(orders[k], status, userId) ==>
      Row(k, orders[k]) in ListOrders(orders, 0, limit, status, userId)
  {
    ListingComplete(users, UserFilter(search, role), limit);
    ListingComplete(products, ProductFilter(search, category, lowStock), limit);
    ListingComplete(orders, OrderFilter(status, userId), limit);
  }

  /** `skip` is an offset into the one ordered listing: the page at
      `skip + a` continues the page at `skip` where it stopped, so reading
      page by page lists every matching record once. */
  lemma ListingsPageThrough(users: map<int, User>, products: map<int, Product>, orders: map<int, Order>,
                            skip: nat, a: nat, b: nat, search: Option<string>, role: Option<Role>,
                            category: Option<string>, lowStock: bool, status: Option<OrderStatus>,
                            userId: Option<int>)
    ensures ListUsers(users, skip, a, search, role) + ListUsers(users, skip + a, b, search, role)
            == ListUsers(users, skip, a + b, search, role)
    ensures ListProducts(products, skip, a, search, category, lowStock)
            + ListProducts(products, skip + a, b, search, category, lowStock)
            == ListProducts(products, skip, a + b, search, category, lowStock)
    ensures ListOrders(orders, skip, a, status, userId) + ListOrders(orders, skip + a, b, status, userId)
            == ListOrders(orders, skip, a + b, status, userId)
  {
    ListingPagesConcatenate(users, UserFilter(search, role), skip, a, b);
    ListingPagesConcatenate(products, ProductFilter(search, category, lowStock), skip, a, b);
    ListingPagesConcatenate(orders, OrderFilter(status, userId), skip, a, b);
  }

  /** The filters are a conjunction: listing everything with the combined
      filter equals narrowing by one filter and then by the other. */
  lemma ProductFiltersCompose(products: map<int, Product>, skip: nat, limit: nat,
                              search: Option<string>, category: Option<string>, lowStock: bool)
    ensures ListProducts(products, skip, limit, search, category, lowStock) ==
      Page(Filter(Filter(Rows(products), ProductFilter(search, None, false)), ProductFilter(None, category, lowStock)),
           skip, limit)
  {
    var p := ProductFilter(search, None, false);
    var q := ProductFilter(None, category, lowStock);
    var rows := Rows(products);
    FilterFilter(rows, p, q);
    ProductFilterSplits(search, category, lowStock);
    FilterSameKeep(rows, And(p, q), ProductFilter(search, category, lowStock));
  }

  lemma ProductFilterSplits(search: Option<string>, category: Option<string>, lowStock: bool)
    ensures forall x :: And(ProductFilter(search, None, false), ProductFilter(None, category, lowStock))(x)
                        == ProductFilter(search, category, lowStock)(x)
  {
  }

  /** The unpaged `low_stock` listing has one entry per product below the
      threshold. */
  lemma LowStockListSize(products: map<int, Product>)
    ensures |ListProducts(products, 0, |products|, None, None, true)| ==
      Count(Rows(products), ProductFilter(None, None, true))
  {
    var rows := Rows(products);
    PageAll(Filter(rows, ProductFilter(None, None, true)), |products|);
    CountIsFilterLength(rows, ProductFilter(None, None, true));
  }

  /** The dashboard counts only active products under the threshold, the
      list's `low_stock` filter counts inactive ones too: the dashboard
      figure never exceeds the list, and falls short of it exactly when a
      deactivated product is low on stock. */
  lemma DashboardVersusLowStockList(products: map<int, Product>)
    ensures DashboardLowStock(products) <= |ListProducts(products, 0, |products|, None, None, true)|
    ensures DashboardLowStock(products) < |ListProducts(products, 0, |products|, None, None, true)| <==>
      exists k :: k in products && !products[k].isActive && IsLowStock(products[k].quantity)
  {
    var rows := Rows(products);
    var listed := ProductFilter(None, None, true);
    LowStockListSize(products);
    CountWeaker(rows, ActiveLowStock(), listed);
    if exists k :: k in products && !products[k].isActive && IsLowStock(products[k].quantity) {
      var k :| k in products && !products[k].isActive && IsLowStock(products[k].quantity);
      assert Row(k, products[k]) in rows && listed(Row(k, products[k])) && !ActiveLowStock()(Row(k, products[k]));
    } else {
      forall i | 0 <= i < |rows|
        ensures ActiveLowStock()(rows[i]) == listed(rows[i])
      {
        assert rows[i].id in products && products[rows[i].id] == rows[i].value;
      }
      FilterSameKeep(rows, ActiveLowStock(), listed);
      CountIsFilterLength(rows, ActiveLowStock());
      CountIsFilterLength(rows, listed);
    }
  }
}
