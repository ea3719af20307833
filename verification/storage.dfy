/** The browser key-value store behind the storefront. Each of the three records is a
    slot that may be missing; reading a missing slot yields the default. */
module Storage {
  import opened Wrappers
  import opened Domain
  import Cart

  /** Raw slots for the cart, user-list and current-user keys; `None` is a missing key. */
  datatype Store = Store(cart: Option<seq<CartLine>>, users: Option<seq<User>>, currentUser: Option<Session>)

  /** A browser that never ran the storefront. */
  const Empty: Store := Store(None, None, None)

  /** The stored cart; a missing key reads as the empty cart. */
  function GetCart(st: Store): (c: seq<CartLine>)
    ensures st.cart.None? ==> c == []
    ensures st.cart.Some? ==> c == st.cart.value
  {
    match st.cart
    case None => []
    case Some(c) => c
  }

  /** The stored user list; a missing key reads as no users. */
  function GetUsers(st: Store): (u: seq<User>)
    ensures st.users.None? ==> u == []
    ensures st.users.Some? ==> u == st.users.value
  {
    match st.users
    case None => []
    case Some(u) => u
  }

  /** The stored session; a missing key reads as no session. */
  function GetCurrentUser(st: Store): (c: Option<Session>)
    ensures st.currentUser.None? ==> c.None?
    ensures st.currentUser.Some? ==> c == st.currentUser
  {
    st.currentUser
  }

  function SetCart(st: Store, c: seq<CartLine>): (r: Store)
    ensures GetCart(r) == c
    ensures GetUsers(r) == GetUsers(st) && GetCurrentUser(r) == GetCurrentUser(st)
  {
    st.(cart := Some(c))
  }

  function SetUsers(st: Store, users: seq<User>): (r: Store)
    ensures GetUsers(r) == users
    ensures GetCart(r) == GetCart(st) && GetCurrentUser(r) == GetCurrentUser(st)
  {
    st.(users := Some(users))
  }

  function SetCurrentUser(st: Store, s: Session): (r: Store)
    ensures GetCurrentUser(r) == Some(s)
    ensures GetCart(r) == GetCart(st) && GetUsers(r) == GetUsers(st)
  {
    st.(currentUser := Some(s))
  }

  /** Logging out deletes the current-user key. */
  function RemoveCurrentUser(st: Store): (r: Store)
    ensures GetCurrentUser(r) == None
    ensures GetCart(r) == GetCart(st) && GetUsers(r) == GetUsers(st)
  {
    st.(currentUser := None)
  }

  /** Reads the three records, applying the missing-key defaults. */
  function Load(st: Store): (s: State)
    ensures st.cart.None? ==> s.cart == []
    ensures st.users.None? ==> s.users == []
    ensures st.cart.Some? ==> s.cart == st.cart.value
    ensures st.users.Some? ==> s.users == st.users.value
    ensures s.current == st.currentUser
  {
    State(GetCart(st), GetUsers(st), GetCurrentUser(st))
  }

  /** Writes the three records back; a logged-out state leaves no current-user key. */
  function Save(s: State): (st: Store)
    ensures Load(st) == s
    ensures st.cart.Some? && st.users.Some?
  {
    var st := SetUsers(SetCart(Empty, s.cart), s.users);
    match s.current
    case None => RemoveCurrentUser(st)
    case Some(u) => SetCurrentUser(st, u)
  }

  /** The header badge as computed from the store: a missing cart counts 0. */
  function CartCount(st: Store): (n: int)
    ensures st.cart.None? ==> n == 0
    ensures Cart.NoNegativeLine(GetCart(st)) ==> 0 <= n
  {
    Cart.Count(GetCart(st))
  }

  /** A fresh browser loads as the initial state. */
  lemma LoadEmpty()
    ensures Load(Empty) == Initial
  {
  }
}
