/** The storefront as a whole: every user action as a transition over the persisted
    state, the invariants those transitions keep, and the history they never rewrite. */
module Storefront {
  import opened Wrappers
  import opened Domain
  import Catalog
  import Cart
  import Text
  import Account
  import CheckoutFlow
  import Storage

  /** The user actions that change persisted state. */
  datatype Action =
    | AddItem(id: string, qty: int)
    | RemoveItem(id: string)
    | SetQuantity(id: string, qty: int)
    | IncreaseItem(id: string)
    | DecreaseItem(id: string)
    | PlaceOrder(date: string)
    | SignUp(fullname: string, email: string, password: string)
    | SignIn(email: string, password: string)
    | SignOut

  predicate IsCartAction(a: Action)
  {
    a.AddItem? || a.RemoveItem? || a.SetQuantity? || a.IncreaseItem? || a.DecreaseItem?
  }

  predicate IsAccountAction(a: Action)
  {
    a.SignUp? || a.SignIn? || a.SignOut?
  }

  /** Performs one cart action; only adding an unknown product is refused. */
  function CartStep(catalog: seq<Product>, s: State, a: Action): (r: Result<State, Failure>)
    requires IsCartAction(a)
    ensures r.Err? ==> a.AddItem?
    ensures r.Ok? ==> r.value.users == s.users && r.value.current == s.current
  {
    match a
    case AddItem(id, n) =>
      (match Cart.AddToCart(catalog, s.cart, id, n)
       case Ok(c) => Ok(s.(cart := c))
       case Err(e) => Err(e))
    case RemoveItem(id) => Ok(s.(cart := Cart.RemoveFromCart(s.cart, id)))
    case SetQuantity(id, q) => Ok(s.(cart := Cart.UpdateCartQty(catalog, s.cart, id, q)))
    case IncreaseItem(id) => Ok(s.(cart := Cart.IncreaseQty(catalog, s.cart, id)))
    case DecreaseItem(id) => Ok(s.(cart := Cart.DecreaseQty(catalog, s.cart, id)))
  }

  /** Performs one account action; only registration and login can be refused. */
  function AccountStep(s: State, a: Action): (r: Result<State, Failure>)
    requires IsAccountAction(a)
    ensures r.Err? ==> a.SignUp? || a.SignIn?
    ensures r.Ok? ==> r.value.cart == s.cart
    ensures r.Ok? && !a.SignUp? ==> r.value.users == s.users
  {
    match a
    case SignUp(fullname, email, password) => Account.Register(s, fullname, email, password)
    case SignIn(email, password) => Account.Login(s, email, password)
    case SignOut => Ok(Account.Logout(s))
  }

  /** Performs one action; a rejection carries the reason shown to the user. */
  function Step(catalog: seq<Product>, s: State, a: Action): (r: Result<State, Failure>)
    ensures r.Err? ==> a.AddItem? || a.PlaceOrder? || a.SignUp? || a.SignIn?
    ensures r.Ok? && IsCartAction(a) ==> r.value.users == s.users && r.value.current == s.current
    ensures r.Ok? && IsAccountAction(a) ==> r.value.cart == s.cart
    ensures r.Ok? && (a.SignIn? || a.SignOut?) ==> r.value.users == s.users
    ensures r.Ok? && a.PlaceOrder? ==> r.value.cart == [] && r.value.current == s.current
  {
    if a.PlaceOrder? then CheckoutFlow.Checkout(s, a.date)
    else if IsAccountAction(a) then AccountStep(s, a)
    else CartStep(catalog, s, a)
  }

  /** The state after an action: a rejected action writes nothing. */
  function Next(catalog: seq<Product>, s: State, a: Action): (r: State)
    ensures Step(catalog, s, a).Err? ==> r == s
    ensures Step(catalog, s, a).Ok? ==> r == Step(catalog, s, a).value
  {
    match Step(catalog, s, a)
    case Ok(s') => s'
    case Err(_) => s
  }

  /** The state after a sequence of actions. */
  function Run(catalog: seq<Product>, s: State, actions: seq<Action>): State
    decreases |actions|
  {
    if |actions| == 0 then s else Run(catalog, Next(catalog, s, actions[0]), actions[1..])
  }

  /** Running one more action after a sequence is taking one more step from where the
      sequence left off. */
  lemma {:induction false} RunSnoc(catalog: seq<Product>, s: State, actions: seq<Action>, a: Action)
    ensures Run(catalog, s, actions + [a]) == Next(catalog, Run(catalog, s, actions), a)
    decreases |actions|
  {
    if |actions| == 0 {
      assert actions + [a] == [a];
      assert ([a])[1..] == [];
    } else {
      assert (actions + [a])[0] == actions[0];
      assert (actions + [a])[1..] == actions[1..] + [a];
      RunSnoc(catalog, Next(catalog, s, actions[0]), actions[1..], a);
    }
  }

  /** One event handler against the raw store: read the records, act, write them back,
      or write nothing at all when the action is rejected. */
  function Handle(catalog: seq<Product>, st: Storage.Store, a: Action): (r: Storage.Store)
    ensures Step(catalog, Storage.Load(st), a).Err? ==> r == st
    ensures Storage.Load(r) == Next(catalog, Storage.Load(st), a)
  {
    match Step(catalog, Storage.Load(st), a)
    case Ok(s') => Storage.Save(s')
    case Err(_) => st
  }

  /** A cart line whose product resolves and whose quantity does not exceed its stock. */
  predicate WithinStock(catalog: seq<Product>, l: CartLine)
  {
    match Catalog.Lookup(catalog, l.id)
    case None => false
    case Some(p) => l.qty <= p.stock
  }

  predicate CartValid(catalog: seq<Product>, cart: seq<CartLine>)
  {
    Cart.UniqueIds(cart) && forall i :: 0 <= i < |cart| ==> WithinStock(catalog, cart[i])
  }

  /** What every reachable state satisfies. */
  predicate Valid(catalog: seq<Product>, s: State)
  {
    CartValid(catalog, s.cart) && AccountsValid(s)
  }

  predicate AccountsValid(s: State)
  {
    && Account.UniqueEmails(s.users)
    && Account.KeysNormalised(s.users)
    && Account.SessionKnown(s)
  }

  lemma InitialValid(catalog: seq<Product>)
    ensures Valid(catalog, Initial)
  {
  }

  lemma AddKeepsCartValid(catalog: seq<Product>, cart: seq<CartLine>, id: string, n: int)
    requires CartValid(catalog, cart)
    requires Cart.AddToCart(catalog, cart, id, n).Ok?
    ensures CartValid(catalog, Cart.AddToCart(catalog, cart, id, n).value)
  {
    Cart.AddKeepsUnique(catalog, cart, id, n);
    var c := Cart.AddToCart(catalog, cart, id, n).value;
    if Cart.HasLine(cart, id) {
      var i := Cart.LineIndex(cart, id);
      assert c == cart[i := CartLine(id, Cart.Min(cart[i].qty + n, Cart.Stock(catalog, id).value))];
      assert WithinStock(catalog, c[i]);
    } else {
      assert WithinStock(catalog, c[|cart|]);
    }
  }

  /** Replacing the quantity of an existing line keeps the cart valid when the new
      quantity stays within the product's stock. */
  lemma RequantifyKeepsCartValid(catalog: seq<Product>, cart: seq<CartLine>, id: string, r: seq<CartLine>)
    requires CartValid(catalog, cart)
    requires |r| == |cart|
    requires !Cart.HasLine(cart, id) ==> r == cart
    requires forall i :: Cart.IsFirstLine(cart, id, i) ==> r == cart[i := CartLine(id, r[i].qty)]
    requires forall i :: Cart.IsFirstLine(cart, id, i) && Cart.Stock(catalog, id).Some? ==>
               r[i].qty <= Cart.Stock(catalog, id).value
    ensures CartValid(catalog, r)
  {
    if Cart.HasLine(cart, id) {
      var i := Cart.LineIndex(cart, id);
      assert WithinStock(catalog, cart[i]);
      assert WithinStock(catalog, r[i]);
    }
  }

  lemma CheckoutKeepsValid(s: State, date: string)
    requires AccountsValid(s)
    requires CheckoutFlow.Checkout(s, date).Ok?
    ensures AccountsValid(CheckoutFlow.Checkout(s, date).value)
  {
  }

  lemma RegisterKeepsValid(catalog: seq<Product>, s: State, fullname: string, email: string, password: string)
    requires Valid(catalog, s)
    requires Account.Register(s, fullname, email, password).Ok?
    ensures Valid(catalog, Account.Register(s, fullname, email, password).value)
  {
    var s' := Account.Register(s, fullname, email, password).value;
    Account.RegisterKeepsUnique(s, fullname, email, password);
    assert Account.Project(s'.users[|s.users|]) == s'.current.value;
  }

  lemma LoginKeepsValid(catalog: seq<Product>, s: State, email: string, password: string)
    requires Valid(catalog, s)
    requires Account.Login(s, email, password).Ok?
    ensures Valid(catalog, Account.Login(s, email, password).value)
  {
  }

  /** Every action keeps the invariant. */
  lemma NextKeepsValid(catalog: seq<Product>, s: State, a: Action)
    requires Valid(catalog, s)
    ensures Valid(catalog, Next(catalog, s, a))
  {
    var r := Step(catalog, s, a);
    if r.Ok? {
      if a.PlaceOrder? {
        CheckoutKeepsValid(s, a.date);
      } else if IsAccountAction(a) {
        AccountStepKeepsValid(catalog, s, a);
      } else {
        CartStepKeepsValid(catalog, s, a);
      }
    }
  }

  lemma AccountStepKeepsValid(catalog: seq<Product>, s: State, a: Action)
    requires Valid(catalog, s)
    requires IsAccountAction(a)
    requires AccountStep(s, a).Ok?
    ensures Valid(catalog, AccountStep(s, a).value)
  {
    match a
    case SignUp(fullname, email, password) => RegisterKeepsValid(catalog, s, fullname, email, password);
    case SignIn(email, password) => LoginKeepsValid(catalog, s, email, password);
    case SignOut =>
  }

  lemma CartStepKeepsValid(catalog: seq<Product>, s: State, a: Action)
    requires Valid(catalog, s)
    requires IsCartAction(a)
    requires CartStep(catalog, s, a).Ok?
    ensures Valid(catalog, CartStep(catalog, s, a).value)
  {
    match a
    case AddItem(id, n) => AddKeepsCartValid(catalog, s.cart, id, n);
    case RemoveItem(id) => Cart.RemoveKeepsUnique(s.cart, id);
    case SetQuantity(id, q) =>
      RequantifyKeepsCartValid(catalog, s.cart, id, Cart.UpdateCartQty(catalog, s.cart, id, q));
    case IncreaseItem(id) =>
      RequantifyKeepsCartValid(catalog, s.cart, id, Cart.IncreaseQty(catalog, s.cart, id));
    case DecreaseItem(id) =>
      RequantifyKeepsCartValid(catalog, s.cart, id, Cart.DecreaseQty(catalog, s.cart, id));
  }

  /** Any sequence of actions keeps the invariant. */
  lemma {:induction false} RunKeepsValid(catalog: seq<Product>, s: State, actions: seq<Action>)
    requires Valid(catalog, s)
    ensures Valid(catalog, Run(catalog, s, actions))
    decreases |actions|
  {
    if |actions| > 0 {
      NextKeepsValid(catalog, s, actions[0]);
      RunKeepsValid(catalog, Next(catalog, s, actions[0]), actions[1..]);
    }
  }

  /** Whatever a browser does, no cart line exceeds its product's stock, product ids stay
      distinct, e-mail keys stay distinct, and a session always belongs to a stored user. */
  lemma ReachableValid(catalog: seq<Product>, actions: seq<Action>)
    ensures Valid(catalog, Run(catalog, Initial, actions))
  {
    RunKeepsValid(catalog, Initial, actions);
  }

  /** `after` keeps every account of `before` in place, with its name, e-mail and
      password, and its order history only extended. */
  predicate Extends(before: seq<User>, after: seq<User>)
  {
    && |before| <= |after|
    && forall k :: 0 <= k < |before| ==>
         && after[k].fullname == before[k].fullname
         && after[k].email == before[k].email
         && after[k].password == before[k].password
         && before[k].orders <= after[k].orders
  }

  lemma ExtendsTransitive(a: seq<User>, b: seq<User>, c: seq<User>)
    requires Extends(a, b) && Extends(b, c)
    ensures Extends(a, c)
  {
  }

  /** No action deletes an account or rewrites a past order. */
  lemma NextExtends(catalog: seq<Product>, s: State, a: Action)
    ensures Extends(s.users, Next(catalog, s, a).users)
  {
  }

  /** Order history is append-only over any sequence of actions. */
  lemma {:induction false} RunExtends(catalog: seq<Product>, s: State, actions: seq<Action>)
    ensures Extends(s.users, Run(catalog, s, actions).users)
    decreases |actions|
  {
    if |actions| == 0 {
      assert forall k :: 0 <= k < |s.users| ==> s.users[k].orders <= s.users[k].orders;
    } else {
      var s1 := Next(catalog, s, actions[0]);
      NextExtends(catalog, s, actions[0]);
      RunExtends(catalog, s1, actions[1..]);
      ExtendsTransitive(s.users, s1.users, Run(catalog, s1, actions[1..]).users);
    }
  }

  /** When the session belongs to a stored account (as in every reachable state), a checkout that passes both guards always records its order. */
  lemma ValidCheckoutRecordsOrder(catalog: seq<Product>, s: State, date: string)
    requires Account.SessionKnown(s)
    requires s.current.Some? && s.cart != []
    ensures Step(catalog, s, PlaceOrder(date)).Ok?
    ensures exists k :: 0 <= k < |s.users| && s.users[k].email == s.current.value.email
                        && Next(catalog, s, PlaceOrder(date)).users[k].orders == s.users[k].orders + [Order(date, s.cart)]
  {
    CheckoutFlow.KnownSessionRecordsOrder(s, date);
  }

  /** Quantities are not floored: a typed quantity of -3 is stored as it is, so the
      invariant cannot promise that every line holds at least one unit. */
  lemma NegativeQuantityReachable()
    ensures var catalog := [Product("p1", 25)];
            Run(catalog, Initial, [AddItem("p1", -3)]).cart == [CartLine("p1", -3)]
  {
  }
}
