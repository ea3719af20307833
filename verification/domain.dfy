/** The persisted records of the storefront: catalog products, cart lines,
    users with their order history, and the logged-in session. */
module Domain {
  import opened Wrappers

  /** A catalog product; only the fields the state logic reads are kept. */
  datatype Product = Product(id: string, stock: int)

  /** One product-quantity pairing of the cart. */
  datatype CartLine = CartLine(id: string, qty: int)

  /** A checked-out cart: an opaque timestamp and a copy of the cart's lines. */
  datatype Order = Order(date: string, items: seq<CartLine>)

  /** A registered account; the password is stored and compared in plain text. */
  datatype User = User(fullname: string, email: string, password: string, orders: seq<Order>)

  /** The reduced projection of a user kept while logged in. */
  datatype Session = Session(fullname: string, email: string)

  /** The three persisted records, decoded. */
  datatype State = State(cart: seq<CartLine>, users: seq<User>, current: Option<Session>)

  /** Why a user action was rejected; each is shown as an alert and nothing is written. */
  datatype Failure =
    | ProductNotFound
    | MissingField
    | DuplicateEmail
    | InvalidCredentials
    | NotLoggedIn
    | EmptyCart

  /** The state of a fresh browser: no cart, no users, nobody logged in. */
  const Initial: State := State([], [], None)
}
