# Inventory management: mutation engine, audit log and record rules

This project is a Dafny model of the core of a small inventory-management system. The
system has two backends, a Spring service and an Express API, plus a React front end.
The model covers:

- **The quantity mutation engine.** An *increase* adds the requested amount to an item's
  stock. A *decrease* removes `min(requested, stock)`, adds that amount to `sold` and
  recomputes `soldPrice = sold * price`. Each successful mutation appends one audit-log
  entry that carries the *requested* amount. The Spring `LogService` and the Express
  `logControllers` are both modelled. The Express handlers have no positivity check.
- **Item lifecycle and queries.** These are `ItemService` (Spring) and `itemControllers`
  (Express): validated create, owner listings, category listings, lookup, an
  owner-checked partial update and an owner-checked delete. The Spring patch writes every
  field the request gives. The Express patch writes only truthy values.
- **The record constructors** of `Item`, `Log` and `User`.
- **Dashboard totals and name search.** The React context's `setValues` loop and its
  reverse-then-aggregate step, and the `searchItems` filter.
- **The user record and the password-reset token.** Registration checks, login, the
  profile patch and delete, and the reset token. A reset token is a JWT signed with a
  ten-minute expiry; it is stored on the user with a one-hour expiry, checked against
  both and then cleared. This is modelled for `UserService` (Spring), the
  Express `auth` routes and `userControllers`.

The stores are classes whose fields the operations update:

- `Repositories.ItemRepository` holds a `map` from id to item;
- `Repositories.LogRepository` holds an append-only `seq` of log entries;
- `Repositories.UserRepository` holds a `map` from id to user.

Each request that writes is a method that takes those stores and `modifies` only the
ones it writes. Its `ensures` gives the result and the whole new state, branch by branch,
in the source's own check order. The read-only requests (the listings, `GetItem` and
`GetLogs`) are functions of the stores' contents, and their `ensures` give the result
branch by branch in the same way.

The pure rules (`Mutation.Decreased`, `ItemService.ApplyPatch`,
`ItemControllers.ApplyTruthyPatch`, `UserModel.PatchUser`, `ResetToken.Issue`, `Accepts`,
`Consume`, `ItemStateContext.TotalsOf`, `ItemSearch.SearchItems`) are functions. Lemmas
state what they promise. The methods are proved to apply them.

Collaborators outside the core are parameters:

- the current time is `now`, in milliseconds;
- the password encoder or bcrypt is `encode`/`hash` and `matches`/`compare`;
- the reset-token signer and verifier is `generate`/`sign` and `decode`/`verify`;
- the outcome of mail delivery is `mailDelivered` (Spring) and `mailSent` (Express);
- the verdict of the Express request validator is `validationFailed`.

Prices are exact `real` numbers. Quantities are unbounded integers.

Several rules one would expect of such an inventory system are not enforced by the
code. The model follows the code, and where the code departs from the expected rule a
lemma shows how:

- **Ownership checks.** The expected rule is that only an item's owner may increase
  or decrease it or read its log, and that anyone else gets a `Forbidden` error. The
  code checks only that the user and the item exist, so any existing item can be mutated
  and read. Only update and delete compare the owner, and they report a mismatch as
  not-found.
- **Log replay.** The expected rule is that replaying an item's log from its initial
  stock gives its current stock. The decrease log carries the uncapped request, so a
  capped decrease breaks the replay (`Mutation.CappedDecreaseLogOvershoots`).
- **The Spring patch.** The expected rule is that a falsy patch value (0 or "") keeps
  the old value. The Spring patch writes any value the request gives, including 0 and "".
  Only the Express patch skips falsy values (`ItemControllers.ZeroQuantityPatchDiffers`).
- **Creating an item.** The expected rule is that a new item starts with nothing sold.
  The Spring constructor keeps a supplied `sold` and still sets `soldPrice` to 0
  (`ItemModel.NewItemSoldPrice`).
- **Non-negative stock and monotone `sold`.** The expected rules are that stock is never
  negative and that `sold` never decreases. Neither is enforced:
  - a patch can store a negative stock;
  - an Express increase with a negative amount lowers the stock
    (`LogControllers.NegativeIncreaseLowersStock`);
  - a decrease lowers `sold` when the stock is negative (`Mutation.DecreaseSoldMonotone`).

## Model

| member | source | states |
|---|---|---|
| ItemModel.NewItem | backend-springboot/src/main/java/com/inventorymanagement/models/Item.java:30-41 | a new item has no id yet, copies owner, name, description, quantity, price and category unchanged, takes `sold` from the argument or 0 when it is absent, starts `soldPrice` at 0 and is dated `now`; no range check on quantity or price |
| ItemModel.NewItemSoldPrice | backend-springboot/src/main/java/com/inventorymanagement/models/Item.java:37-39 | the new item's revenue field equals `sold * price` exactly when `sold` is absent or 0 or the price is 0: a supplied non-zero `sold` at a non-zero price starts stale |
| LogModel.NewLog | backend-springboot/src/main/java/com/inventorymanagement/models/Log.java:26-33 | a new entry has no id yet, copies user, item, action, quantity and description unchanged and is dated once, at construction |
| UserModel.NewUser | backend-springboot/src/main/java/com/inventorymanagement/models/User.java:27-33 | a new user has no id, the given name, email, phone number and password, the creation date, and neither a reset token nor an expiry |
| UserModel.PatchUser | backend-springboot/src/main/java/com/inventorymanagement/services/UserService.java:82-90 | name, email and phone number are each replaced exactly when the request gives a non-empty value; every other field, including the stored password and the reset token, is kept |
| UserModel.PatchUserIdempotent | backend-springboot/src/main/java/com/inventorymanagement/services/UserService.java:82-90 | applying the same profile patch twice gives the same record as applying it once |
| Repositories.ItemRepository.Insert | backend-springboot/src/main/java/com/inventorymanagement/services/ItemService.java:48 | saving a new item stores it under the next unused id, returns it with that id and leaves every other item as it was |
| Repositories.ItemRepository.Update | backend-springboot/src/main/java/com/inventorymanagement/services/LogService.java:52 | saving an existing item replaces exactly the record under its id |
| Repositories.ItemRepository.Delete | backend-springboot/src/main/java/com/inventorymanagement/services/ItemService.java:115 | deleting by id removes exactly that key |
| Repositories.LogRepository.Append | backend-springboot/src/main/java/com/inventorymanagement/services/LogService.java:56 | saving a log appends exactly one entry, whose id is its position, and keeps every earlier entry |
| Repositories.UserRepository.FindByEmail | backend-springboot/src/main/java/com/inventorymanagement/services/UserService.java:57 | the lookup finds nothing exactly when no user has the email, and otherwise finds a user with that email |
| Repositories.UserRepository.Insert | backend-springboot/src/main/java/com/inventorymanagement/services/UserService.java:53 | saving a new user stores it under the next unused id and keeps every other user |
| Repositories.UserRepository.Update | backend-springboot/src/main/java/com/inventorymanagement/services/UserService.java:92 | saving an existing user replaces exactly the record under its id |
| Repositories.UserRepository.Delete | backend-springboot/src/main/java/com/inventorymanagement/services/UserService.java:99 | deleting by id removes exactly that user |
| Repositories.ItemsOfUser | backend-springboot/src/main/java/com/inventorymanagement/repositories/ItemRepository.java:11 | the owner query returns exactly the stored items whose owner is the user, unchanged |
| Repositories.ItemsOfUserInCategory | backend-springboot/src/main/java/com/inventorymanagement/repositories/ItemRepository.java:12 | the owner-and-category query returns exactly the stored items with that owner and that category, unchanged |
| Repositories.CategoryListingRefinesOwnerListing | backend-springboot/src/main/java/com/inventorymanagement/repositories/ItemRepository.java:11-12 | every item of a category listing is also in the owner listing, with the same value |
| Repositories.LogsOfItemAndUser | backend-springboot/src/main/java/com/inventorymanagement/repositories/LogRepository.java:11 | the log query returns the entries for that item and that user, in insertion order, and every such entry is returned, each as often as it is stored |
| Mutation.Increased | backend-springboot/src/main/java/com/inventorymanagement/services/LogService.java:50-52 | the increase rule: the item with its stock raised by the requested amount; its properties are stated by the lemmas below |
| Mutation.Decreased | backend-springboot/src/main/java/com/inventorymanagement/services/LogService.java:81-86 | the decrease rule, in the service's order: `sold` grows by `min(q, stock)`, the revenue field is recomputed from the new `sold`, then the stock shrinks by the same amount; its properties are stated by the lemmas below |
| Mutation.IncreaseIsExact | backend-springboot/src/main/java/com/inventorymanagement/services/LogService.java:50-52 | an increase changes the stock by exactly the requested amount and no other field of the item |
| Mutation.DecreaseStock | backend-springboot/src/main/java/com/inventorymanagement/services/LogService.java:82-86 | a decrease leaves `stock - min(q, stock)`, which is never negative; a request of at least the whole stock empties it, and a smaller one removes exactly the request |
| Mutation.DecreaseConserves | backend-springboot/src/main/java/com/inventorymanagement/services/LogService.java:82-86 | `sold` grows by the applied amount, so stock plus sold units is conserved by every decrease |
| Mutation.DecreaseSoldMonotone | backend-springboot/src/main/java/com/inventorymanagement/services/LogService.java:82-84 | a decrease never lowers `sold` if and only if both the request and the stock are non-negative |
| Mutation.DecreaseRepricesSold | backend-springboot/src/main/java/com/inventorymanagement/services/LogService.java:84-85 | after a decrease the revenue field is the updated `sold` times the current price |
| Mutation.DecreaseFrame | backend-springboot/src/main/java/com/inventorymanagement/services/LogService.java:81-88 | a decrease writes only stock, `sold` and the revenue field; id, owner, name, description, price, category and date are unchanged |
| Mutation.IncreaseMatchesLog | backend-springboot/src/main/java/com/inventorymanagement/services/LogService.java:50-56 | for an "Increase Quantity" entry recording the request, the old stock plus the entry's signed delta is the increased stock: replaying an increase entry reproduces the stock |
| Mutation.CappedDecreaseLogOvershoots | backend-springboot/src/main/java/com/inventorymanagement/services/LogService.java:82-92 | when the request exceeds a non-negative stock, the stock becomes 0, while the old stock plus the signed delta of the "Decrease Quantity" entry recording that request is below 0: a replay of the log disagrees with the stock |
| Mutation.UncappedDecreaseMatchesLog | backend-springboot/src/main/java/com/inventorymanagement/services/LogService.java:82-92 | when the request is positive and within the stock, the old stock plus the signed delta of the entry recording it is exactly the new stock |
| LogService.MutationRequestError | backend-springboot/src/main/java/com/inventorymanagement/services/LogService.java:30-48 | a mutation request passes exactly when the user exists, the amount is present and positive, the description is present and non-empty and the item exists; a failure names the first failed check in that order, and each error arises exactly when every earlier check passed and its own check failed |
| LogService.IncreaseQuantity | backend-springboot/src/main/java/com/inventorymanagement/services/LogService.java:28-57 | a failed check gives that error and writes nothing; otherwise the item, whoever owns it, becomes its increased copy, and exactly one "Increase Quantity" entry with the caller, the item, the amount and the description is appended and returned; a log whose actions are all "Increase Quantity" or "Decrease Quantity" stays so |
| LogService.DecreaseQuantity | backend-springboot/src/main/java/com/inventorymanagement/services/LogService.java:59-93 | a failed check gives that error and writes nothing; otherwise the item, whoever owns it, becomes its decreased copy (capped stock, `sold` raised, revenue repriced), and exactly one "Decrease Quantity" entry carrying the uncapped request is appended and returned; a log whose actions are all known stays so |
| LogService.GetLogs | backend-springboot/src/main/java/com/inventorymanagement/services/LogService.java:95-109 | "No such user", then "Item does not exist", else an order-preserving subsequence of the log that holds only and all the entries for that item and that user, each as often as it is stored |
| LogControllers.MutationRequestError | backend/Controllers/logControllers.js:9-23 | a request passes exactly when the validator accepts it and the user and the item exist; otherwise the 403 of the validator, then 404 "User Does not exist", then 404 "Item does not exist" |
| LogControllers.IncreaseQuantity | backend/Controllers/logControllers.js:6-43 | a failure writes nothing; otherwise the stock changes by the requested amount, whatever its sign, and exactly one "Increase Quantity" entry with that amount is created and returned; the owner is never compared; a log whose actions are all known stays so |
| LogControllers.DecreaseQuantity | backend/Controllers/logControllers.js:45-90 | a failure writes nothing; otherwise the item change (`sold` raised by `min(q, stock)`, revenue repriced, stock `stock - q` or 0) is the same as the Spring `Decreased(item, q)` for every `q`, and one "Decrease Quantity" entry with the requested `q` is created; a log whose actions are all known stays so |
| LogControllers.NegativeIncreaseLowersStock | backend/Controllers/logControllers.js:18-25 | with no positivity check, a negative increase amount lowers the stock |
| ItemService.AddItemError | backend-springboot/src/main/java/com/inventorymanagement/services/ItemService.java:27-44 | a create request passes exactly when the user exists and a non-empty name, a price, a non-empty category and a quantity are given; a failure names the first failed check in that order, and each error arises exactly when every earlier check passed and its own check failed |
| ItemService.AddItem | backend-springboot/src/main/java/com/inventorymanagement/services/ItemService.java:23-49 | a failed check stores nothing; otherwise exactly one item, built by the constructor for the caller with a missing description read as "", is stored under a fresh id and returned |
| ItemService.GetItemsByUser | backend-springboot/src/main/java/com/inventorymanagement/services/ItemService.java:51-57 | "No such user" exactly when the user is missing, success exactly when the user exists, and then exactly the user's items, unchanged |
| ItemService.GetItemsByUserCategory | backend-springboot/src/main/java/com/inventorymanagement/services/ItemService.java:59-65 | "No such user" exactly when the user is missing, success exactly when the user exists, and then exactly the user's items in that category |
| ItemService.GetItem | backend-springboot/src/main/java/com/inventorymanagement/services/ItemService.java:67-79 | "No such user", then "Item does not exist", else the stored item |
| ItemService.GetItemIgnoresOwner | backend-springboot/src/main/java/com/inventorymanagement/services/ItemService.java:67-79 | an existing user can read an existing item that another user owns |
| ItemService.ApplyPatch | backend-springboot/src/main/java/com/inventorymanagement/services/ItemService.java:94-99 | each field given in the request, including 0 and "", is written; each absent one keeps its value; id, owner, revenue field and date never change |
| ItemService.PatchLeavesSoldPriceStale | backend-springboot/src/main/java/com/inventorymanagement/services/ItemService.java:94-101 | writing a different `sold` into an item whose revenue field was current, at a non-zero price, leaves that field stale, because the patch does not reprice |
| ItemService.UpdateItem | backend-springboot/src/main/java/com/inventorymanagement/services/ItemService.java:81-102 | "No such user", then a missing item or one owned by someone else fails, both with no change; otherwise only that item is replaced by its patched copy, which is returned |
| ItemService.DeleteItem | backend-springboot/src/main/java/com/inventorymanagement/services/ItemService.java:104-116 | the same two failures with no change; otherwise exactly that item is removed, and the log store is outside the frame |
| ItemControllers.GetItemsByUser | backend/Controllers/itemControllers.js:37-57 | the Spring listing with its failure answered as a 404: 404 exactly when the caller is missing, and otherwise the same listing as `ItemService.GetItemsByUser`, so exactly the caller's items |
| ItemControllers.GetItemsByUserCategory | backend/Controllers/itemControllers.js:59-83 | the Spring category listing with its failure answered as a 404: 404 exactly when the caller is missing, and otherwise the same listing as `ItemService.GetItemsByUserCategory` |
| ItemControllers.GetItem | backend/Controllers/itemControllers.js:85-108 | 404 for a missing caller, then for a missing item, else the item whoever owns it |
| ItemControllers.GetLogs | backend/Controllers/itemControllers.js:172-196 | 404 for a missing caller, then for a missing item, else an order-preserving subsequence holding only and all the entries for that item by the caller, each as often as it is stored |
| ItemControllers.ApplyTruthyPatch | backend/Controllers/itemControllers.js:128-133 | the Express patch: each field takes the request value when that is truthy and keeps its old value otherwise; its properties are stated by the lemmas below |
| ItemControllers.TruthyFields | backend/Controllers/itemControllers.js:128-133 | a field survives exactly when its request value is truthy (present and not "" or 0), and then keeps that value |
| ItemControllers.TruthyPatchIsSpringPatchOfTruthyFields | backend/Controllers/itemControllers.js:128-136 | the Express patch equals the Spring patch applied to the truthy request values only, so it too never changes id, owner, revenue field or date |
| ItemControllers.TruthyPatchCannotClear | backend/Controllers/itemControllers.js:128-133 | after the Express patch, stock, `sold`, price, name or category is 0 or "" only if it already was |
| ItemControllers.ZeroQuantityPatchDiffers | backend/Controllers/itemControllers.js:130 | for an item with non-zero stock, a request setting the quantity to 0 changes the stock under the Spring patch and keeps it under the Express patch |
| ItemControllers.UpdateItem | backend/Controllers/itemControllers.js:110-143 | 404 for a missing caller, then 404 for a missing item or one owned by someone else, with no change; otherwise only that item becomes its truthy-patched copy |
| ItemControllers.DeleteItem | backend/Controllers/itemControllers.js:145-170 | the same two 404s with no change; otherwise exactly that item is removed, and the log store is outside the frame |
| ResetToken.IssuedClaims | backend-springboot/src/main/java/com/inventorymanagement/security/JwtTokenProvider.java:32-40 | a reset token signed for a user at a time carries that user's id and an expiry 600000 ms (ten minutes) later |
| ResetToken.Accepts | backend-springboot/src/main/java/com/inventorymanagement/services/UserService.java:140-143 | the Spring stored-token check: the stored token is present and equal to the supplied one, and the stored expiry is present and not before `now`; its properties are stated by the lemmas below |
| ResetToken.AcceptsJs | backend/Routes/auth.js:45-47 | the Express stored-token check: a stored token equal to the supplied one, and a stored expiry, read as 0 when null, not before `now`; its properties are stated by the lemmas below |
| ResetToken.Issue | backend-springboot/src/main/java/com/inventorymanagement/services/UserService.java:110-114 | issuing stores the token with an expiry 3600000 ms after `now` and changes no other field |
| ResetToken.Consume | backend-springboot/src/main/java/com/inventorymanagement/services/UserService.java:145-148 | a reset stores the new password hash, clears token and expiry and changes no other field |
| ResetToken.IssuedTokenAccepted | backend-springboot/src/main/java/com/inventorymanagement/services/UserService.java:140-143 | a freshly issued token is accepted exactly for that token and exactly while `now` is at most the expiry (the expiry instant itself is accepted) |
| ResetToken.SpringResetWindow | backend-springboot/src/main/java/com/inventorymanagement/services/UserService.java:110-143 | for a token signed and stored at the same instant, the JWT check and the stored-token check together pass exactly for that token and up to and including ten minutes after issue: the signed ten-minute expiry, not the stored hour, decides |
| ResetToken.ExpressResetWindow | backend/Routes/auth.js:17-47 | the same for Express, where `jwt.verify` already refuses at the expiry instant: the reset passes exactly for that token and strictly within ten minutes of issue |
| ResetToken.SingleUse | backend-springboot/src/main/java/com/inventorymanagement/services/UserService.java:140-148 | after a reset no token at all is accepted, by either backend's check, so a token works once |
| ResetToken.ReissueRevokes | backend/Routes/auth.js:23-45 | issuing a new token makes an earlier, different token fail both backends' checks |
| ResetToken.PairedPreserved | backend/Routes/auth.js:23-58 | issuing, consuming and the profile patch all keep the token and the expiry set or cleared together |
| ResetToken.BackendsAgreeOnPaired | backend/Routes/auth.js:45-49 | on records whose token and expiry are set or cleared together, the Express check accepts exactly the resets that the Spring check accepts |
| ResetToken.BackendsDifferOnNullExpiry | backend/Routes/auth.js:47 | a stored token with a null expiry is accepted by the Express check whenever `now` is not after time 0 (null compares as 0) and refused by the Spring check |
| UserService.RegisterError | backend-springboot/src/main/java/com/inventorymanagement/services/UserService.java:36-46 | registration passes exactly when the email is unused, the name is 5 to 30 characters long and the password at least 8; the email check comes first, and each error arises exactly when every earlier check passed and its own check failed |
| UserService.RegisterUser | backend-springboot/src/main/java/com/inventorymanagement/services/UserService.java:34-54 | a failed check creates no user; otherwise exactly one user, holding the encoder's output rather than the password, is stored under a fresh id and returned |
| UserService.LoginUser | backend-springboot/src/main/java/com/inventorymanagement/services/UserService.java:56-69 | "User not found" exactly when no user has the email; a returned user has that email and a hash matching the password; "Invalid Password" only for a user with that email whose hash does not match; nothing changes |
| UserService.UpdateUser | backend-springboot/src/main/java/com/inventorymanagement/services/UserService.java:79-93 | "User not found" with no change, else only that user is replaced by its profile-patched copy, which is returned |
| UserService.DeleteUser | backend-springboot/src/main/java/com/inventorymanagement/services/UserService.java:95-100 | "User not found" with no change, else exactly that user is removed |
| UserService.InitiatePasswordReset | backend-springboot/src/main/java/com/inventorymanagement/services/UserService.java:102-124 | an unknown email is "User not found" with no change; otherwise a user with that email, and only that user, gets the token generated for its id at `now`, with a stored one-hour expiry, and the token stays stored even when the mail fails and the call reports the failure |
| UserService.ResetPassword | backend-springboot/src/main/java/com/inventorymanagement/services/UserService.java:126-149 | a token the JWT parser refuses (a bad signature or a signed expiry before `now`) is rejected, then a token with no id claim is "Invalid or expired token", then an unknown user is "User not found", then a stored token that is missing, different or expired is "Invalid or expired token", each with no change; otherwise only that user's password becomes the encoded new one and the token and expiry are cleared |
| UserControllers.RegisterUser | backend/Controllers/userControllers.js:9-43 | a validator rejection or a used email gives a 403 and creates no user; otherwise exactly one user, holding the hash of the password, is created under a fresh id, and that id is returned |
| UserControllers.Login | backend/Controllers/userControllers.js:45-75 | 403 from the validator; 404 exactly when no user has the email; a token only for a user with that email whose hash matches; 400 only on a mismatch; once the validator accepts, the outcome is always one of these three; nothing changes |
| UserControllers.UpdateUser | backend/Controllers/userControllers.js:77-97 | 404 with no change for a missing user; otherwise only that user is replaced by its copy with the truthy name, email and phone number, which is the same profile patch as the Spring service |
| UserControllers.DeleteUser | backend/Controllers/userControllers.js:99-114 | 404 with no change for a missing user, else exactly that user is deleted |
| AuthRoutes.ForgotPassword | backend/Routes/auth.js:9-35 | 404 with nothing stored for an unknown email; otherwise a user with that email, and only that user, gets the token signed for its id at `now`, stored with expiry `now + 3600000`, and the route replies with success only when the mail is sent; when sending fails it never replies, and the token stays stored |
| AuthRoutes.ResetPassword | backend/Routes/auth.js:38-64 | succeeds exactly when `jwt.verify` accepts the token (its signed expiry is still after `now`), its id claim names an existing user, and that user's stored token is this one with a stored expiry not before `now`; then only that user gets the hashed new password and cleared token and expiry; every failure is the same 400 with no change |
| ItemStateContext.SetValues | Frontend/src/Context/ItemState.jsx:48-64 | the loop returns the number of items and the sums of price times stock, of stock and of price times `sold` over the whole list; an empty list gives all zeros |
| ItemStateContext.SumReverse | Frontend/src/Context/ItemState.jsx:25-27 | a sum over the list does not change when the list is reversed |
| ItemStateContext.TotalsIgnoreReversal | Frontend/src/Context/ItemState.jsx:25-27 | the four totals of the reversed list are those of the list as fetched |
| ItemStateContext.StockTotalNonNegative | Frontend/src/Context/ItemState.jsx:55-62 | with no negative stock, the stock total is not negative |
| ItemStateContext.SalesTotalMatchesStoredRevenue | Frontend/src/Context/ItemState.jsx:55-63 | when every item's revenue field is current, the sales total equals the sum of the stored revenue fields |
| ItemStateContext.DecreaseKeepsStockPlusSold | Frontend/src/Context/ItemState.jsx:55-62 | decreasing one listed item leaves the stock total plus the units-sold total unchanged |
| ItemStateContext.ItemState.constructor | Frontend/src/Context/ItemState.jsx:6-11 | the context starts with an empty list and all four totals at zero |
| ItemStateContext.ItemState.ReceiveItems | Frontend/src/Context/ItemState.jsx:25-28 | a successful response stores the list reversed, position by position and as the same multiset of items, with totals equal to those of the fetched list and of the stored one; any other response changes nothing |
| ItemSearch.Lower | Frontend/src/components/Items.jsx:19 | `toLowerCase` keeps the length and maps each character to its lower-case form |
| ItemSearch.LowerIdempotent | Frontend/src/components/Items.jsx:19 | lower-casing twice is lower-casing once, so a lower-cased query is its own lower-case form |
| ItemSearch.Contains | Frontend/src/components/Items.jsx:19 | `includes`: the needle is a prefix of the name or of one of its suffixes; `ContainsAt` states what that means |
| ItemSearch.ContainsAt | Frontend/src/components/Items.jsx:19 | the substring test holds exactly when the needle occurs at some position of the name |
| ItemSearch.SearchItems | Frontend/src/components/Items.jsx:16-29 | an empty query keeps the whole list; a non-empty one keeps, as an order-preserving subsequence, only and all the items whose lower-cased name contains the lower-cased query, each matching item as often as it is listed |
| ItemSearch.SearchIgnoresQueryCase | Frontend/src/components/Items.jsx:19 | queries that lower-case to the same string find the same items |
| ItemSearch.SearchIdempotent | Frontend/src/components/Items.jsx:16-25 | searching a search result again with the same query changes nothing |
| Seqs.Filter | Frontend/src/components/Items.jsx:18-24 | `Array.prototype.filter`: an order-preserving subsequence holding only elements that pass the test and every listed element that does, each passing element as often as in the input |
| Scenario.WidgetScenario | backend-springboot/src/main/java/com/inventorymanagement/services/LogService.java:50-92 | on fresh stores, registering, adding an item with stock 10 at price 2, increasing by 5 and then asking to decrease by 20 leaves stock 0 and 15 sold at a revenue of 30, while the log records 5 then 20 |
| Scenario.SpringLateResetRefused | backend-springboot/src/main/java/com/inventorymanagement/services/UserService.java:102-149 | when the token decodes to the claims it was signed with, a reset requested at time 0 is refused by the JWT parser at 660000 ms, inside the stored hour, and the same link then resets the password at 600000 ms |
| Scenario.ExpressResetAtExpiry | backend/Routes/auth.js:9-64 | when the token verifies to the claims it was signed with, a reset requested at time 0 is a 400 at exactly 600000 ms and succeeds at 599999 ms |
| Scenario.ExpressForgotPasswordUnanswered | backend/Routes/auth.js:23-34 | with a mail helper whose send fails, as the shipped one always does, `forgot-password` for a known email never replies, while the signed token and its expiry 3600000 ms after the request stay stored |

## Left out

- JWT signing and verification (`JwtTokenProvider`, `JwtAuthenticationFilter`, `fetchUser.js`) are foreign crypto. They are the parameters `generate`/`decode` and `sign`/`verify`. The verifier returns the claims it reads or nothing for a bad signature or format; the model applies each library's expiry test to those claims. The authenticated caller id is a plain argument.
- UserService.ResetPassword: nothing ties `decode` to `generate`, so the contract alone does not say that an issued token decodes to its signer's claims. `ResetToken.SpringResetWindow` and `Scenario.SpringLateResetRefused` state the reset window under that assumption. JWT expiries are stored in whole seconds, and that truncation of the ten-minute expiry is not modelled.
- AuthRoutes.ResetPassword: the same holds for `sign` and `verify` (`ResetToken.ExpressResetWindow`, `Scenario.ExpressResetAtExpiry`). A verified token with no `id` claim is modelled as matching no user, which is a 400. In the route, `findOne` with an undefined `_id` is not modelled further.
- Password hashing (`PasswordEncoder`, bcrypt) is foreign. It is the parameters `encode`/`hash` and `matches`/`compare`. Salting, the cost factor and the issued auth token's contents are not modelled.
- Sending the reset email is I/O. Its outcome is the flag `mailDelivered` in Spring and `mailSent` in Express. The shipped Express helper always fails: `backend/utils/sendEmail.js:15` names an undeclared `to`, so every call throws before any mail is sent. `backend/Routes/auth.js:32` does not catch that, so as shipped `forgot-password` never replies to a known email; `mailSent` is then false (`Scenario.ExpressForgotPasswordUnanswered`). Mail transport and its contents are not modelled.
- The Express app as shipped cannot serve any request. `backend/Models/Item.js:45` calls `module.exports(Item)` instead of assigning `module.exports = Item`, which throws the first time the file is loaded. `itemControllers.js` and `logControllers.js` load it, and `backend/app.js:19` loads the item routes at the top level, before `start()` reaches `app.listen`. The other entry file, `backend/server.js:6`, loads a `./routes/userRoute` that does not exist. All Express handlers (`ItemControllers`, `LogControllers`, `UserControllers`, `AuthRoutes`) are modelled as they would behave with `module.exports = Item`.
- Apart from the defects above, the HTTP controllers of the Spring backend, the Express routes and the application wiring only map statuses and connect modules. Only the service layer is modelled for Spring. The Express handlers are modelled by their record effects and status codes.
- The Mongoose schemas are persistence declarations, apart from the export defect above. The Express item schema has no `soldPrice` path, so the revenue assignment in `decreaseQuantity` is probably dropped on save. The model keeps the assignment as the handler writes it.
- LogControllers.IncreaseQuantity: the route validator accepts an empty description (`backend/Routes/log.js:9`), but the log schema marks `description` as required (`backend/Models/Log.js:24-27`), and Mongoose refuses "" for a required string. With `""` the item is saved first, then `Log.create` fails and the handler answers 500, leaving an item change with no log entry. The model does not run schema validation and appends the entry.
- LogControllers.DecreaseQuantity: the same schema failure applies to an empty description (`backend/Routes/log.js:13`); it is not modelled either.
- The Express `addItem` handler is not modelled. The validator's 403 returns, but the 403 "User Does not exist" for a missing user has no `return` (`backend/Controllers/itemControllers.js:17-19`). The handler then falls through to `Item.create` and a second response, which is a double-response defect.
- React rendering, the other page components and the `fetch` calls are left out. Only the step from a response to the context's state (`ReceiveItems`) and the search filter are modelled.
- Concurrency is left out. Each request is one atomic method, so the read-modify-write race between concurrent mutations is not modelled. Neither is a failure between the item write and the log append.
- Dates are integer milliseconds from a `now` parameter. `LocalDateTime`, time zones and the clock are left out.
- Prices and revenues are exact `real` numbers. JavaScript's floating point in the dashboard sums and Java's `BigDecimal` scale are left out.
- Integers are unbounded. Java's 32-bit `Integer` overflow on `quantity + q` and on `sold + applied` is not modelled.
- Request bodies are typed. In JavaScript, a quantity sent as a numeric string would concatenate in `item.quantity + quantity`; the model takes the amount as an integer.
- ItemSearch.Lower: lower-cases ASCII letters only, because Unicode case mapping has no counterpart here.
- ItemStateContext.ItemState.ReceiveItems: the in-place `reverse()` of the fetched array is modelled as storing a reversed sequence. Aliasing of that array is not modelled. Because `setValues` receives the same, reversed, array, the model computes the totals of the reversed list and proves them equal to those of the list as fetched. The backends' listings are modelled as maps from id to item, so the order of the fetched list has no link to the store's order: the model takes the list in whatever order it arrives, and database order is not modelled.
- Repositories.UserRepository.FindByEmail: when several users share an email, this lookup may pick any of them. The Spring repository would fail on a non-unique result, and that exception is not modelled. The Express store cannot reach that state, because of its unique index.
- UserControllers.UpdateUser: a patch to an email already used by another user fails the unique index on save. That failure (a 500) is not modelled, and the patch is applied.
- UserControllers.RegisterUser: for a used email the handler sends its 403 and has no `return`, so it goes on to `User.create` (`backend/Controllers/userControllers.js:18-24`). That no second user is created rests on the unique index on `email` (`backend/Models/User.js:12`), which refuses the create. The catch then tries to send a 500 after the 403, which throws because the headers are already sent. The model states only the outcome the client sees first, a 403 with no user created. It does not model the rejected create, the failed 500 or the unhandled rejection.
- UserService.RegisterError: Java's `String.length()` counts UTF-16 code units. The model counts characters of a Dafny string, so the 5-to-30 and at-least-8 bounds agree with Java only for text within the Basic Multilingual Plane.
- `getUserById` is modelled inside `UserService.UpdateUser`, as its "User not found" branch.
