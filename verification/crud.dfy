/** The data-access helpers of `app/crud.py` over in-memory tables: maps
    from the database-assigned id to the record. The id a new row receives
    is a parameter. */
module Crud {
  import opened Wrappers
  import opened Records

  /** A row of `cart_items`. */
  datatype CartRow = CartRow(userId: int, productId: int, quantity: int)

  /** `add_to_cart`: always inserts a new row, even when the user already
      has one for the product. */
  function AddToCart(rows: map<int, CartRow>, freshId: int, userId: int, productId: int, quantity: int)
    : (r: map<int, CartRow>)
    requires freshId !in rows
    ensures r.Keys == rows.Keys + {freshId}
    ensures r[freshId] == CartRow(userId, productId, quantity)
    ensures forall id :: id in rows ==> r[id] == rows[id]
  {
    rows[freshId := CartRow(userId, productId, quantity)]
  }

  /** `get_cart_items`: the rows of one user. */
  function GetCartItems(rows: map<int, CartRow>, userId: int): (r: map<int, CartRow>)
    ensures forall id :: id in r <==> id in rows && rows[id].userId == userId
    ensures forall id :: id in r ==> r[id] == rows[id]
  {
    map id | id in rows && rows[id].userId == userId :: rows[id]
  }

  /** The row ids a user holds for a product. */
  function RowsFor(rows: map<int, CartRow>, userId: int, productId: int): set<int> {
    set id | id in rows && rows[id].userId == userId && rows[id].productId == productId
  }

  /** Adding the same product twice leaves two separate rows, both listed
      for the user: the backend never merges lines. */
  lemma TwoAddsTwoRows(rows: map<int, CartRow>, id1: int, id2: int, userId: int, productId: int, q: int)
    requires id1 !in rows && id2 !in rows && id1 != id2
    ensures var r := AddToCart(AddToCart(rows, id1, userId, productId, q), id2, userId, productId, q);
      RowsFor(r, userId, productId) == RowsFor(rows, userId, productId) + {id1, id2}
      && id1 in GetCartItems(r, userId) && id2 in GetCartItems(r, userId)
  {
    var r := AddToCart(AddToCart(rows, id1, userId, productId, q), id2, userId, productId, q);
    assert RowsFor(r, userId, productId) == RowsFor(rows, userId, productId) + {id1, id2};
  }

  /** `remove_cart_item`: whether the row existed, and the table after. */
  function RemoveCartItem(rows: map<int, CartRow>, id: int): (r: (bool, map<int, CartRow>))
    ensures r.0 <==> id in rows
    ensures !r.0 ==> r.1 == rows
    ensures r.1.Keys == rows.Keys - {id}
    ensures forall k :: k in r.1 ==> r.1[k] == rows[k]
  {
    if id !in rows then (false, rows) else (true, rows - {id})
  }

  /** Adding a row and removing it again restores the table. */
  lemma AddThenRemove(rows: map<int, CartRow>, freshId: int, userId: int, productId: int, q: int)
    requires freshId !in rows
    ensures RemoveCartItem(AddToCart(rows, freshId, userId, productId, q), freshId) == (true, rows)
  {
    assert AddToCart(rows, freshId, userId, productId, q) - {freshId} == rows;
  }

  /** `ProductCreate`: the body of a product update through crud. */
  datatype ProductInput = ProductInput(name: string, description: string, price: int, quantity: int)

  /** `update_product`: `None` for an unknown id; otherwise every field of
      the input is written and the rest of the record is kept. */
  function UpdateProduct(products: map<int, Product>, id: int, input: ProductInput)
    : (r: (Option<Product>, map<int, Product>))
    ensures id !in products ==> r.0.None? && r.1 == products
    ensures id in products ==> r.0.Some? && r.1 == products[id := r.0.value]
    ensures id in products ==>
      var p := r.0.value;
      && p.name == input.name && p.description == input.description
      && p.price == input.price && p.quantity == input.quantity
      && p.image == products[id].image && p.category == products[id].category
      && p.sku == products[id].sku && p.isActive == products[id].isActive
  {
    if id !in products then (None, products)
    else
      var p := products[id].(name := input.name, description := input.description,
                             price := input.price, quantity := input.quantity);
      (Some(p), products[id := p])
  }

  /** Updating twice with the same input is the same as updating once. */
  lemma UpdateProductIdempotent(products: map<int, Product>, id: int, input: ProductInput)
    ensures UpdateProduct(UpdateProduct(products, id, input).1, id, input) == UpdateProduct(products, id, input)
  {
    if id in products {
      var once := UpdateProduct(products, id, input).1;
      assert once[id := once[id]] == once;
    }
  }

  /** `delete_product`: a hard delete. */
  function DeleteProduct(products: map<int, Product>, id: int): (r: (bool, map<int, Product>))
    ensures r.0 <==> id in products
    ensures r.1.Keys == products.Keys - {id}
    ensures forall k :: k in r.1 ==> r.1[k] == products[k]
  {
    if id !in products then (false, products) else (true, products - {id})
  }

  /** The delete is final: deleting the same id again finds nothing and
      leaves the table as the first delete left it. */
  lemma DeleteProductTwice(products: map<int, Product>, id: int)
    ensures var once := DeleteProduct(products, id).1;
      DeleteProduct(once, id) == (false, once)
  {
  }

  /** `UserUpdate` as read by `update_user`: absent fields are `None`. */
  datatype UserInput = UserInput(username: Option<string>, email: Option<string>, password: Option<string>)

  predicate Truthy(s: Option<string>) {
    s.Some? && s.value != ""
  }

  /** Failures of `update_user`: an HTTP error, a Python `NameError`, or
      the `IntegrityError` a unique column raises at commit. */
  datatype Fault = Http(error: HttpError) | NameError(name: string) | IntegrityError

  /** A truthy username or email that another account already holds: the
      unique columns reject the commit. */
  predicate InputClashes(users: map<int, User>, id: int, input: UserInput) {
    || (Truthy(input.username) && UsernameTaken(users, id, input.username.value))
    || (Truthy(input.email) && EmailTaken(users, id, input.email.value))
  }

  /** `update_user` as the lookup was evidently meant: 404 for an unknown
      id; an `IntegrityError` when a new username or email belongs to
      another account; otherwise only truthy fields are applied, and the
      password is stored through `hash`. */
  function UpdateUser(users: map<int, User>, id: int, input: UserInput, hash: string -> string)
    : (r: Result<map<int, User>, Fault>)
    ensures id !in users <==> r == Err(Http(HttpError(404, "User not found")))
    ensures id in users && InputClashes(users, id, input) <==> r == Err(IntegrityError)
    ensures r.Ok? ==> r.value.Keys == users.Keys && forall k :: k in users && k != id ==> r.value[k] == users[k]
    ensures r.Ok? ==> r.value[id].username == (if Truthy(input.username) then input.username.value else users[id].username)
    ensures r.Ok? ==> r.value[id].email == (if Truthy(input.email) then input.email.value else users[id].email)
    ensures r.Ok? ==>
              r.value[id].hashedPassword == (if Truthy(input.password) then hash(input.password.value) else users[id].hashedPassword)
    ensures r.Ok? ==> r.value[id].(username := users[id].username, email := users[id].email,
                                   hashedPassword := users[id].hashedPassword) == users[id]
  {
    if id !in users then Err(Http(HttpError(404, "User not found")))
    else if InputClashes(users, id, input) then Err(IntegrityError)
    else
      var u := users[id];
      var u1 := if Truthy(input.username) then u.(username := input.username.value) else u;
      var u2 := if Truthy(input.email) then u1.(email := input.email.value) else u1;
      var u3 := if Truthy(input.password) then u2.(hashedPassword := hash(input.password.value)) else u2;
      Ok(users[id := u3])
  }

  /** An update with nothing truthy in it changes no record: absent and
      empty fields alike are skipped. */
  lemma EmptyUserUpdateIsNoOp(users: map<int, User>, id: int, input: UserInput, hash: string -> string)
    requires id in users
    requires !Truthy(input.username) && !Truthy(input.email) && !Truthy(input.password)
    ensures UpdateUser(users, id, input, hash) == Ok(users)
  {
    assert users[id := users[id]] == users;
  }

  /** A successful update keeps the table within its unique constraints. */
  lemma UpdateUserKeepsAccountsUnique(users: map<int, User>, id: int, input: UserInput, hash: string -> string)
    requires UniqueAccounts(users)
    requires UpdateUser(users, id, input, hash).Ok?
    ensures UniqueAccounts(UpdateUser(users, id, input, hash).value)
  {
    var after := UpdateUser(users, id, input, hash).value;
    forall j, k | j in after && k in after && j != k
      ensures after[j].username != after[k].username && after[j].email != after[k].email
    {
      assert !UsernameTaken(users, j, users[j].username) && !EmailTaken(users, j, users[j].email);
      assert !UsernameTaken(users, k, users[k].username) && !EmailTaken(users, k, users[k].email);
      assert !InputClashes(users, id, input);
    }
  }

  /** `update_user` as written: its first statement calls `get_user_by_id`,
      which the module never defines, so every call ends in `NameError`. */
  function UpdateUserAsWritten(users: map<int, User>, id: int, input: UserInput, hash: string -> string)
    : (r: Result<map<int, User>, Fault>)
  {
    Err(NameError("get_user_by_id"))
  }

  /** Even for a user that exists and a valid new name, the code as
      written updates nothing, where the intended update succeeds. */
  lemma UpdateUserAsWrittenFails(users: map<int, User>, id: int, name: string, hash: string -> string)
    requires id in users && name != "" && !UsernameTaken(users, id, name)
    ensures UpdateUserAsWritten(users, id, UserInput(Some(name), None, None), hash) == Err(NameError("get_user_by_id"))
    ensures UpdateUser(users, id, UserInput(Some(name), None, None), hash) ==
      Ok(users[id := users[id].(username := name)])
  {
  }
}
