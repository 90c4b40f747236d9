/** The backend's persistent records (`app/models.py`), as stored in the
    tables the routes read and write. Prices are integers in minor units. */
module Records {
  import opened Wrappers

  /** `UserRole` */
  datatype Role = Customer | Admin | SuperAdmin

  /** The enum's string value, as the frontend sees it in `user.role`. */
  function RoleValue(r: Role): string {
    match r
    case Customer => "user"
    case Admin => "admin"
    case SuperAdmin => "super_admin"
  }

  /** `OrderStatus` */
  datatype OrderStatus = Pending | Processing | Shipped | Delivered | Cancelled

  function StatusValue(s: OrderStatus): string {
    match s
    case Pending => "pending"
    case Processing => "processing"
    case Shipped => "shipped"
    case Delivered => "delivered"
    case Cancelled => "cancelled"
  }

  /** A row of `users`; `is_active` defaults to true. */
  datatype User = User(
    username: string,
    email: string,
    hashedPassword: string,
    role: Role,
    isActive: bool,
    firstName: Option<string>,
    lastName: Option<string>,
    phone: Option<string>,
    address: Option<string>)

  /** Another row than `id` already holds this username: the column is
      `unique=True`, so writing it at `id` makes the commit fail. */
  predicate UsernameTaken(users: map<int, User>, id: int, name: string) {
    exists k :: k in users && k != id && users[k].username == name
  }

  /** Another row than `id` already holds this email (`unique=True`). */
  predicate EmailTaken(users: map<int, User>, id: int, email: string) {
    exists k :: k in users && k != id && users[k].email == email
  }

  /** The table respects both unique columns: no two rows share a username
      or an email. */
  predicate UniqueAccounts(users: map<int, User>) {
    forall id :: id in users ==>
      !UsernameTaken(users, id, users[id].username) && !EmailTaken(users, id, users[id].email)
  }

  /** A row of `products`; image, category and sku are nullable. */
  datatype Product = Product(
    name: string,
    description: string,
    price: int,
    quantity: int,
    image: Option<string>,
    category: Option<string>,
    sku: Option<string>,
    isActive: bool)

  /** A row of `orders`; the status defaults to pending. */
  datatype Order = Order(
    userId: int,
    totalPrice: int,
    status: OrderStatus,
    shippingAddress: Option<string>)

  /** Threshold below which a product counts as low on stock, shared by the
      dashboard, the admin product list and the admin product table. */
  const LowStockThreshold: int := 10

  predicate IsLowStock(quantity: int) {
    quantity < LowStockThreshold
  }
}
