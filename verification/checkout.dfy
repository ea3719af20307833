/** The checkout button: turns the cart into an order of the logged-in user. */
module CheckoutFlow {
  import opened Wrappers
  import opened Domain
  import opened Account

  /** `users` with one order appended to user `k`'s history. */
  function AppendOrder(users: seq<User>, k: int, order: Order): (r: seq<User>)
    requires 0 <= k < |users|
    ensures |r| == |users|
    ensures r[k].orders == users[k].orders + [order]
    ensures r[k] == users[k].(orders := r[k].orders)
    ensures forall j :: 0 <= j < |users| && j != k ==> r[j] == users[j]
  {
    users[k := users[k].(orders := users[k].orders + [order])]
  }

  /** Checks out at time `date`. Without a session the checkout is refused first, then
      with an empty cart. Otherwise the first user stored under the session's e-mail
      gains one order holding the cart's lines, and the cart is emptied; when no user
      carries that e-mail, no order is recorded but the cart is emptied all the same. */
  function Checkout(s: State, date: string): (r: Result<State, Failure>)
    ensures r == Err(NotLoggedIn) <==> s.current.None?
    ensures r == Err(EmptyCart) <==> s.current.Some? && s.cart == []
    ensures r.Ok? <==> s.current.Some? && s.cart != []
    ensures r.Ok? ==> r.value.cart == [] && r.value.current == s.current && |r.value.users| == |s.users|
    ensures r.Ok? ==> forall k :: IsFirstEmail(s.users, s.current.value.email, k) ==>
              r.value.users == AppendOrder(s.users, k, Order(date, s.cart))
    ensures r.Ok? && !HasEmail(s.users, s.current.value.email) ==> r.value.users == s.users
  {
    match s.current
    case None => Err(NotLoggedIn)
    case Some(session) =>
      if s.cart == [] then Err(EmptyCart)
      else
        var k := EmailIndex(s.users, session.email);
        var users := if k >= 0 then AppendOrder(s.users, k, Order(date, s.cart)) else s.users;
        Ok(State([], users, s.current))
  }

  /** When the session belongs to a stored user, a non-empty checkout always records
      its order: the silent no-record path needs a session without an account. */
  lemma KnownSessionRecordsOrder(s: State, date: string)
    requires SessionKnown(s)
    requires s.current.Some? && s.cart != []
    ensures Checkout(s, date).Ok?
    ensures exists k :: 0 <= k < |s.users| && s.users[k].email == s.current.value.email
                        && Checkout(s, date).value.users[k].orders == s.users[k].orders + [Order(date, s.cart)]
  {
  }

  /** An example: a cart of two p1 and a user with no orders yet. */
  lemma CheckoutExample(date: string)
    ensures var u := User("Ana", "ana@example.com", "secret", []);
            var s := State([CartLine("p1", 2)], [u], Some(Session("Ana", "ana@example.com")));
            Checkout(s, date) == Ok(State([], [u.(orders := [Order(date, [CartLine("p1", 2)])])], s.current))
  {
    var u := User("Ana", "ana@example.com", "secret", []);
    var s := State([CartLine("p1", 2)], [u], Some(Session("Ana", "ana@example.com")));
    assert IsFirstEmail(s.users, "ana@example.com", 0);
    assert u.orders + [Order(date, s.cart)] == [Order(date, s.cart)];
    assert AppendOrder(s.users, 0, Order(date, s.cart)) == [u.(orders := [Order(date, [CartLine("p1", 2)])])];
  }
}
