# VapeStore storefront state core, in Dafny

This project models the state logic of a client-side storefront (`js/app.js`). The storefront has a fixed product catalog, a cart kept in browser storage, and a small account system: register, login, logout, and an order history per user. Nothing in it talks to a server. Every user action reads the stored records, changes them and writes them back. The model states each action as a pure function over those records.

- `Domain`: the records. A `Product` keeps only `id` and `stock`. Then `CartLine {id, qty}`, `Order {date, items}`, `User {fullname, email, password, orders}`, `Session {fullname, email}`, and the persisted `State {cart, users, current}`.
- `Storage`: the key-value store. Each of the three keys is a slot that may be missing. Reading a missing cart or user list gives `[]`, and reading a missing current user gives `None`.
- `Catalog`: resolving a product id to its first catalog entry.
- `Text`: JavaScript's `trim` and `toLowerCase`, and the e-mail key built from them.
- `Cart`: add (clamped only from above by the stock), remove, set quantity (at least 1, capped by the stock when the product resolves), the cart page's +/- buttons, and the badge count.
- `Account`: register, login and logout.
- `CheckoutFlow`: the guarded checkout. It checks the session first, then that the cart is non-empty. It then appends an order snapshot and clears the cart.
- `Storefront`: all actions as one transition function. A rejected action writes nothing. The module proves the invariant every reachable state keeps, and that account history is append-only.

The catalog is a parameter of every operation. The checkout timestamp is a parameter too, and the model never reads a clock.

The model follows the code as written, including these behaviours:
- Cart quantities are not always positive. `addToCart` clamps only from above, and a quantity typed on the product page can be negative (`Storefront.NegativeQuantityReachable`).
- Setting the quantity of a product the catalog no longer knows applies no upper cap. For a product with stock 0, the quantity becomes 0, not 1.
- Login compares the e-mail after trimming and lower-casing it. Only the password is compared exactly as typed.
- Checkout with a session whose e-mail matches no stored user records no order but still empties the cart.

## Model

| member | source | states |
|---|---|---|
| Seqs.FirstIndex | js/app.js:90 | the index is the first one whose element satisfies the predicate, and it is -1 exactly when no element does |
| Seqs.Find | js/app.js:86 | the result is the first element satisfying the predicate, and it is absent exactly when none does |
| Seqs.Filter | js/app.js:103 | every kept element satisfies the predicate and the result is no longer than the input |
| Seqs.FilterMembers | js/app.js:103 | an element is kept exactly when it was present and satisfies the predicate |
| Seqs.FilterAppend | js/app.js:103 | filtering distributes over concatenation, so the kept elements stay in their original relative order |
| Seqs.FilterCut | js/app.js:103 | when exactly one element fails the predicate, filtering cuts out exactly that element |
| Catalog.Lookup | js/app.js:86 | the result is the first catalog entry with the id, and it is absent exactly when no entry has the id |
| Catalog.LookupEntry | js/app.js:7-56 | in a catalog with distinct ids, every entry is what its own id resolves to |
| Text.Trim | js/app.js:282 | the result is a contiguous slice of the input, only white space was cut from either end, and neither end of the result is white space |
| Text.LowerChar | js/app.js:283 | an upper-case ASCII or Latin-1 letter becomes its lower-case partner (code point plus 32), every other character is kept, and white space stays white space |
| Text.Lower | js/app.js:283 | the length is kept, every upper-case letter becomes its lower-case partner (code point plus 32), so no upper-case letter remains, white space stays where it was, and characters that are not upper case are unchanged |
| Text.NormaliseEmail | js/app.js:283 | the key is empty exactly when the trimmed input is, and the key is in normal form |
| Text.NormalKeyFixed | js/app.js:283 | a string in normal form is its own key |
| Text.TrimIdempotent | js/app.js:282 | trimming twice gives the same result as trimming once |
| Text.LowerIdempotent | js/app.js:283 | lower-casing twice gives the same result as lower-casing once |
| Text.LowerTrimCommute | js/app.js:283 | trimming then lower-casing equals lower-casing then trimming |
| Text.NormaliseIdempotent | js/app.js:283 | a stored key normalises to itself |
| Text.NormaliseIgnoresCase | js/app.js:283 | two addresses that differ only in letter case get the same key |
| Cart.LineIndex | js/app.js:90 | the index is the first cart line with the id, and it is -1 exactly when no line has the id |
| Cart.AddToCart | js/app.js:85-96 | an unknown product is rejected. A new product appends one line holding min(n, stock) and leaves earlier lines unchanged. A product already in the cart gets its first line set to min(old + n, stock), in place |
| Cart.RemoveFromCart | js/app.js:102-103 | no line with the id remains, every other line is kept, nothing new appears, and removing an absent id changes nothing |
| Cart.UpdateCartQty | js/app.js:109-116 | a missing line changes nothing. Otherwise only the first line for the id changes. Its quantity is max(1, q) for an unknown product; for a known product it is capped at the stock, at least 1 when the stock is, q itself when 1 <= q <= stock, and the stock when q exceeds it |
| Cart.DecreaseQty | js/app.js:223-228 | only the product's line changes. For an unknown product it becomes max(1, old - 1). For a known product it never rises above max(1, old - 1), stays within [1, stock] when the stock is at least 1, equals the stock when that is below 1 or when the line is more than one above it, and drops by exactly one when that fits |
| Cart.IncreaseQty | js/app.js:230-235 | only the product's line changes. For a known product it never exceeds the stock, is at least 1 when the stock is, stays at the stock once it has reached it, becomes 1 from a negative quantity when the stock is at least 1, equals the stock when that is below 1, and rises by exactly one from a quantity in [0, stock). For an unknown product it becomes max(1, min(old + 1, 99)) |
| Cart.ButtonStock | js/app.js:234 | the cap the "+" button uses: the product's stock, or 99 for a product the catalog does not know |
| Cart.Count | js/app.js:121-123 | the badge is non-negative when no line is negative |
| Cart.CountAppend | js/app.js:123 | the count of a concatenation is the sum of the counts |
| Cart.CountReplace | js/app.js:123 | replacing one line changes the count by the difference of the quantities |
| Cart.CountAfterAdd | js/app.js:90-96 | an accepted add raises the count by exactly what the touched line gained |
| Cart.RemoveCutsLine | js/app.js:103 | with distinct ids, removing a product cuts exactly its line and keeps the rest in order |
| Cart.CountAfterRemove | js/app.js:103 | with distinct ids, removing a product lowers the count by its quantity |
| Cart.AddKeepsUnique | js/app.js:90-96 | an accepted add keeps product ids distinct |
| Cart.RemoveKeepsUnique | js/app.js:103 | removal keeps product ids distinct |
| Storage.SetCart | js/app.js:63-66 | writing the cart is read back as written, and the other keys are untouched |
| Storage.SetUsers | js/app.js:70-72 | writing the user list is read back as written, and the other keys are untouched |
| Storage.SetCurrentUser | js/app.js:76-78 | writing the session is read back as written, and the other keys are untouched |
| Storage.RemoveCurrentUser | js/app.js:79-81 | after logout no session is read back, and the other keys are untouched |
| Storage.GetCart | js/app.js:60-62 | a missing cart key reads as the empty cart, a present one as stored |
| Storage.GetUsers | js/app.js:67-69 | a missing user-list key reads as no users, a present one as stored |
| Storage.GetCurrentUser | js/app.js:73-75 | a missing session key reads as no session, a present one as stored |
| Storage.Load | js/app.js:60-75 | a missing cart or user list reads as empty, a present one reads as stored, and a missing session reads as none |
| Storage.Save | js/app.js:63-81 | loading what was saved gives back the same state |
| Storage.CartCount | js/app.js:121-123 | a store with no cart key counts 0, and the count is non-negative when no line is negative |
| Storage.LoadEmpty | js/app.js:59-75 | a fresh browser loads as the empty cart, no users and no session |
| Account.EmailIndex | js/app.js:263 | the index is the first user stored under the e-mail, and it is -1 exactly when there is none |
| Account.Register | js/app.js:282-291 | missing fields (trimmed name, normalised e-mail, password) are rejected first, then an e-mail already stored. A complete sign-up with a new e-mail is always accepted. Success appends exactly one user with no orders, sets the session to its name and key, and leaves the cart unchanged |
| Account.Login | js/app.js:302-307 | succeeds exactly when some user has the normalised e-mail and the exact password. The session becomes the first such user's projection, and the cart and users are unchanged |
| Account.Logout | js/app.js:79-81 | the session is always cleared, and nothing else changes |
| Account.RegisterKeepsUnique | js/app.js:288-289 | registration keeps e-mail keys distinct |
| Account.RegisterTwiceRefused | js/app.js:288 | registering the same key again is refused as a duplicate |
| Account.RegisterIgnoresCase | js/app.js:283-288 | registering an address that differs only in case is refused as a duplicate |
| Account.LoginPicksFirstMatch | js/app.js:305-307 | login sets the session to the first user whose credentials match |
| Account.RegisterThenLogin | js/app.js:282-307 | logging in right after registering, with the same input, gives exactly the state registration produced |
| Account.WrongPasswordRefused | js/app.js:305-306 | with distinct keys, the right e-mail with a wrong password is refused |
| Account.StoredCredentialsLogIn | js/app.js:305-307 | with distinct keys, a user's stored e-mail and password log that user in |
| CheckoutFlow.AppendOrder | js/app.js:265-266 | exactly one order is appended to one user, and everything else is unchanged |
| CheckoutFlow.Checkout | js/app.js:251-269 | refused without a session, then refused for an empty cart, and accepted in every other case. Then the cart becomes empty, the session is kept, and the first user with the session's e-mail gains one order holding the old cart. With no such user, the users are unchanged |
| CheckoutFlow.KnownSessionRecordsOrder | js/app.js:263-267 | when the session belongs to a stored user, a checkout past both guards always records the order |
| CheckoutFlow.CheckoutExample | js/app.js:259-269 | a cart of two p1 checked out by a user with no orders leaves an empty cart and one order of two p1 |
| Storefront.CartStep | js/app.js:85-118 | among the cart buttons only adding an unknown product is refused; every cart action leaves the registered users and the signed-in session as they were |
| Storefront.AccountStep | js/app.js:277-359 | among the account forms only sign-up and sign-in can be refused; none of them touches the cart, and sign-in and sign-out leave the registered users as they were |
| Storefront.Step | js/app.js:247-359 | only add, checkout, register and login can be rejected. Cart actions never touch users or the session. Account actions never touch the cart. Login and logout never touch users. A checkout empties the cart and keeps the session |
| Storefront.Next | js/app.js:85-359 | a rejected action leaves the state exactly as it was; an accepted one yields the handler's new state |
| Storefront.RunSnoc | js/app.js:85-359 | running a sequence and then one more action equals taking that action from the state the sequence reached, so `Run` is the left-to-right replay of the handlers |
| Storefront.Handle | js/app.js:59-82 | a rejected action leaves the raw store exactly as it was, and an accepted one reads back as the new state |
| Storefront.InitialValid | js/app.js:59-75 | the empty store satisfies the invariant |
| Storefront.AddKeepsCartValid | js/app.js:91-95 | an accepted add keeps ids distinct, every line's product resolving, and every quantity within stock |
| Storefront.RequantifyKeepsCartValid | js/app.js:113-115 | changing an existing line's quantity within its stock keeps the cart valid |
| Storefront.CheckoutKeepsValid | js/app.js:262-269 | checkout keeps keys distinct and normalised, and keeps the session belonging to a stored user |
| Storefront.RegisterKeepsValid | js/app.js:287-291 | registration keeps the invariant |
| Storefront.LoginKeepsValid | js/app.js:305-307 | login keeps the invariant |
| Storefront.CartStepKeepsValid | js/app.js:85-118 | a successful cart action keeps the cart within stock and the account invariant |
| Storefront.AccountStepKeepsValid | js/app.js:277-359 | a successful sign-up, sign-in or sign-out keeps the invariant |
| Storefront.NextKeepsValid | js/app.js:85-359 | every action keeps the invariant |
| Storefront.RunKeepsValid | js/app.js:85-359 | any sequence of actions keeps the invariant |
| Storefront.ReachableValid | js/app.js:85-311 | in every reachable state, no line exceeds its product's stock, product ids and e-mail keys are distinct, and a session belongs to a stored user |
| Storefront.ExtendsTransitive | js/app.js:266 | history extension is transitive |
| Storefront.NextExtends | js/app.js:264-267 | no action deletes an account, changes its name, e-mail or password, or rewrites a past order |
| Storefront.RunExtends | js/app.js:264-289 | order history is append-only over any sequence of actions |
| Storefront.ValidCheckoutRecordsOrder | js/app.js:263-267 | when the session belongs to a stored user, a checkout past both guards appends exactly the old cart to that user's orders |
| Storefront.NegativeQuantityReachable | js/app.js:85-95 | adding -3 units of a product stores a line of -3, so no invariant can promise quantities of at least one |

## Left out

- Page rendering is not modelled: the product grid, carousel, cart page markup, product detail, profile and order list, and nav toggling (`js/app.js:128-169`, `172-215`, `314-348`, `362-389`, `436-443`). These are presentation only.
- Prices, line totals and `toFixed` are not modelled. They use floating point and no state rule depends on them, so `Product` keeps only `id` and `stock`.
- Alerts, confirm dialogs, toasts, timers and redirects are not modelled. A refusal is a `Failure` value and an accepted action is `Ok`.
- `localStorage` and JSON serialisation are replaced by `Storage.Store`, a record of three optional slots. `Storefront.Handle` writes all three slots back after an accepted action, while the code writes only the keys it changed. Both load as the same state.
- The timestamp is a parameter. The model never reads a clock.
- Form and query-string parsing is not modelled: `parseInt(...) || 1` on `js/app.js:240` and `391`, and `URLSearchParams`. Quantities arrive as integers, and the default quantity of 1 is passed by the caller.
- `js/app.js:265` defaults a missing `orders` array to empty. `Domain.User` always has an order list, because registration always stores one.
- Text.Lower and Text.LowerChar: only ASCII and Latin-1 upper-case letters are mapped. JavaScript's `toLowerCase` applies the full Unicode case mapping, including mappings that change a string's length, such as U+0130.
- Text.IsSpace: the model works on Unicode scalar values, while JavaScript strings are UTF-16 code units. The white-space set is the one listed in sections 12.2 and 12.3 of ECMA-262.
- Quantities are unbounded integers. JavaScript numbers are IEEE doubles, which matters only beyond 2^53.
- Two tabs writing the store at once are not modelled. The model assumes one synchronous writer.
