# PeelRescue marketplace core, in Dafny

PeelRescue is a small Go marketplace. Buyers and sellers log in to a web
front end. Buyers collect items in a shopping cart, and checkout writes the
purchase back to a separate item REST API that sellers also use. A console
client talks to the same API. This project models the sequential logic at
the centre of that system and proves what it promises:

- `items.dfy` (module `Items`): the item record `ItemsDetails` and its key
  (item name, seller name). First-match search, lookup by key and the
  "no key twice" invariant are defined here.
- `text.dfy` (module `Text`): the parts of Go's `strings` and RE2 that the
  code relies on. These are `Replace` with -1 (every occurrence deleted),
  `Split`, `Join`, `Contains`, ASCII `ToLower`, and the character classes
  `[A-Za-z]` and `\w`.
- `cart_list.dfy` (module `CartList`): the buyer's cart `CartLinkedList`. It
  is a 1-based singly linked list with a `Head` link and a separate
  `Size` counter, modelled as a class over heap nodes. Every operation is
  proved against a ghost sequence `items` of the node chain.
- `buyer.dfy` (module `Buyer`): the process-wide cart, merge-on-add,
  `updateDB`, the checkout loop, `removeCartItems` and `convStringtoSlice`.
  `removeCartItems` works in place on the array behind the Go slice.
- `server.dfy` (module `Server`): the session table, login, logout, the
  periodic sweep, timeout and extension, sign-up, and the two input
  sanitisers.
- `seller_api.dfy` (module `SellerApi`): the seller and buyer item handlers
  of the REST API. They are transitions over an (item, seller) → record
  table.
- `client.dfy` (module `Client`): the console client's name and quantity
  checks.

The model keeps these behaviours of the code as written:

- `Remove` decrements `Size` even when the index is out of range. After that
  the counter no longer counts the nodes (`CartList.CartLinkedList.Remove`
  proves `!Synced()`).
- `SearchItemName` and `SearchSellerName` stop moving their cursor after the
  first match. They return that line once per remaining round, and their
  "not found" error can never be produced: `CartList.CartLinkedList.StuckSearch`
  answers a nil error on every non-empty list, and `CartList.StuckScanShape`
  gives the repeated line.
- `deleteSession` dereferences the cookie without checking that it exists.
  `ActiveSession` on a request without a cookie is therefore modelled as an
  abort (`Server.SessionState.Aborted`).
- The password check looks for the two literal characters `\s` and for
  `%00`, not for white space (`Server.PasswordWithoutMarkersPasses`).
- Sign-up compares the name as typed with the admin name, then stores the
  lower-cased name.
- The session sweep records the sweep time after it has deleted the expired
  sessions.
- A timeout needs the clock to be strictly after the last activity plus
  `SessionExpireTime`.

Time is integer Unix seconds. `SessionExpireTime` = 300 and
`CleanSessionTime` = 120 come from `application/config/constants.go:10`
and `:13`. The Go zero `time.Time` is `-62135596800`.

## Model

| member | source | states |
|---|---|---|
| Items.FirstMatch | application/buyer/buyer.go:304-305 | the index found is the first line the query matches, and no earlier line matches |
| Items.Lookup | application/buyer/buyer_linkedlist.go:219-236 | none exactly when no line has the key; otherwise a line of the list with that key |
| Items.UniqueKeyIsFirst | application/buyer/buyer_linkedlist.go:219-236 | in a list with unique keys, the search for a line's own key finds that very line |
| Items.LookupFirst | application/buyer/buyer.go:304-305 | the line a lookup returns is the first one with the key, with no unique-keys assumption |
| Text.Remove | application/buyer/buyer.go:347-348 | the result holds no `c`, and every other character is in the result exactly when it is in the input |
| Text.JoinSplit | application/buyer/buyer.go:349 | joining the fields of a split gives back the string |
| Text.SplitJoin | application/buyer/buyer.go:349 | splitting a join of separator-free fields gives back the fields |
| Text.SplitCount | application/buyer/buyer.go:349-354 | a split yields one more field than there are separators, which decides whether fields 0 to 3 exist |
| Text.Split | application/buyer/buyer.go:349 | at least one field, and no field holds the separator |
| Text.Join | application/buyer/buyer.go:349 | a join of n fields has at least n - 1 characters (its separators) |
| Text.ToLowerAscii | application/server/server.go:603 | the same length, and each character lowered on its own: `A`..`Z` to `a`..`z`, all others kept |
| CartList.StuckScanShape | application/buyer/buyer_linkedlist.go:165-213 | the search result is the first match repeated once per remaining round; it is empty exactly when none of the first Size lines matches |
| CartList.StuckScan | application/buyer/buyer_linkedlist.go:165-213 | no more lines than the loop has rounds, and every line returned matches the query |
| CartList.CartLinkedList.constructor | application/buyer/buyer.go:191 | the empty list: Head nil, Size 0, no items |
| CartList.CartLinkedList.Get | application/buyer/buyer_linkedlist.go:26-41 | an empty list errors; 1 <= index <= Size gives the index-th line; any other index gives "Invalid Index"; nothing changes |
| CartList.CartLinkedList.AddNode | application/buyer/buyer_linkedlist.go:48-69 | the line is appended at the tail, earlier lines stay in order, Size grows by one |
| CartList.CartLinkedList.AddAtPos | application/buyer/buyer_linkedlist.go:74-102 | for 1 <= index <= Size+1 the line becomes the index-th and the rest keep their order, with Size one larger; any other index gives "Invalid Index" and no change |
| CartList.CartLinkedList.PushFront | application/buyer/buyer_linkedlist.go:81-83 | the new node becomes the head in front of all lines |
| CartList.CartLinkedList.InsertAfter | application/buyer/buyer_linkedlist.go:85-94 | the new node is linked in after the k-th node |
| CartList.CartLinkedList.Remove | application/buyer/buyer_linkedlist.go:108-133 | an empty list errors with no change; an index in range returns that line and unlinks only it, with Size one smaller; an index out of range returns the empty item, unlinks nothing, still decrements Size, and leaves Size out of step with the nodes |
| CartList.CartLinkedList.PopFront | application/buyer/buyer_linkedlist.go:116-118 | the head line is returned and the head moves to the second node |
| CartList.CartLinkedList.UnlinkAfter | application/buyer/buyer_linkedlist.go:119-129 | the (k+1)-th line is returned and bypassed; the others keep their order |
| CartList.CartLinkedList.GetAllItems | application/buyer/buyer_linkedlist.go:139-159 | returns every line head to tail without changing the list; an empty list gives "No users found." |
| CartList.CartLinkedList.StuckSearch | application/buyer/buyer_linkedlist.go:165-213 | an empty list errors; otherwise the result is the stuck-cursor scan and the error is nil |
| CartList.CartLinkedList.SearchItemName | application/buyer/buyer_linkedlist.go:165-186 | the stuck-cursor scan for the item name |
| CartList.CartLinkedList.SearchSellerName | application/buyer/buyer_linkedlist.go:192-213 | the stuck-cursor scan for the seller name |
| CartList.CartLinkedList.SearchItemAndSellerName | application/buyer/buyer_linkedlist.go:219-236 | the first of the first Size lines with both names, with its 1-based position; an empty list or no match gives -1 and an error |
| CartList.CartLinkedList.WriteAtIndex | application/buyer/buyer_linkedlist.go:243-258 | for 1 <= index <= Size only that line is overwritten and Size is unchanged; an empty list or a bad index errors with no change |
| CartList.CartLinkedList.WriteItemData | application/buyer/buyer_linkedlist.go:265-271 | the same as WriteAtIndex with the arguments swapped |
| Buyer.UpdateDB | application/buyer/buyer.go:302-321 | no record with the line's key: false and no call; otherwise, for the first such record (the one Lookup returns), an UpdateItem to stock minus the cart quantity with the record's cost, item and seller when the stock is larger, else a DeleteItem, made as buyer or seller as asked; the result is that call's answer |
| Buyer.ReserveLine | application/buyer/buyer.go:328-341 | one round of the outer loop removes at most one record and never adds one |
| Buyer.ReserveCart | application/buyer/buyer.go:323-344 | the stock shown has at most as many records as offered, and at least that many minus the cart's lines |
| Buyer.ReserveLineEffect | application/buyer/buyer.go:327-341 | after a cart line is reserved, the record shown for its key is the one the inventory will hold after updateDB's call; records of other keys are unchanged |
| Buyer.ReserveLineOthers | application/buyer/buyer.go:327-341 | reserving a line keeps the records of every other key, in order |
| Buyer.ReserveLineOwnKey | application/buyer/buyer.go:329-338 | the record with the line's key is reduced by the cart quantity when larger, else dropped |
| Buyer.ReserveLineOtherKey | application/buyer/buyer.go:329-338 | the lookup of any other key is unchanged |
| Buyer.ReserveLineUnique | application/buyer/buyer.go:327-341 | reserving keeps the available records' keys unique |
| Buyer.ReserveCartUnique | application/buyer/buyer.go:323-344 | reserving the whole cart keeps the keys unique |
| Buyer.MergedEffect | application/buyer/buyer.go:63-86 | after adding, the key holds the new line with the quantities summed; a new key is appended at the end; an existing key keeps the cart length; other keys and their order are unchanged |
| Buyer.Merged | application/buyer/buyer.go:62-86 | adding grows the cart by at most one line (MergedEffect gives the contents) |
| Buyer.MergedUnique | application/buyer/buyer.go:63-86 | adding keeps the cart's keys unique |
| Buyer.MergedTwice | application/buyer/buyer.go:74-78 | adding the same key twice holds the sum of both quantities and what was there |
| Buyer.UnsoldMembers | application/buyer/buyer.go:204-224 | a line stays in the cart exactly when it is a cart line whose call failed |
| Buyer.Sold | application/buyer/buyer.go:205 | a line can only be sold when the inventory holds a record with its key |
| Buyer.Unsold | application/buyer/buyer.go:204-224 | the lines left are among the cart's lines and no more of them (UnsoldMembers gives which) |
| Buyer.Calls | application/buyer/buyer.go:204-205 | at most one call per cart line, each made as buyer or seller as asked |
| Buyer.CallsStep | application/buyer/buyer.go:205 | loop helper for CheckoutRound: the definition of Calls unfolded at one more line |
| Buyer.UnsoldStep | application/buyer/buyer.go:207-222 | loop helper for CheckoutRound: the definition of Unsold unfolded at one more line |
| Buyer.UnsoldEmpty | application/buyer/buyer.go:206 | the cart ends empty exactly when every line's call succeeded |
| Buyer.UnsoldUnique | application/buyer/buyer.go:210-222 | checkout keeps the cart's keys unique |
| Buyer.UnsoldPosition | application/buyer/buyer.go:212 | when checkout reaches a line, the key search finds it right behind the lines kept so far |
| Buyer.KeyFoundAfter | application/buyer/buyer.go:212 | a line is found right behind lines that all have other keys |
| Buyer.ConvStringToSlice | application/buyer/buyer.go:346-356 | it fails (Go's index panic) exactly when the unbraced text has fewer than three spaces |
| Buyer.ParseFormatted | application/buyer/buyer.go:346-356 | parsing an item printed as `{item quantity cost seller}` gives it back when no field holds a space or a brace |
| Buyer.FormatIsJoin | application/buyer/buyer.go:346-349 | the printed item is its four fields joined by spaces, in braces |
| Buyer.Unbrace | application/buyer/buyer.go:347-348 | deleting the braces around a brace-free text gives the text |
| Buyer.DeleteAt | application/buyer/buyer.go:337 | `append(s[0:i], s[i+1:]...)` shifts the tail one place left in the same array, leaving the last slot stale, and the slice is one shorter |
| Buyer.ReserveInPlace | application/buyer/buyer.go:328-341 | one round of the outer loop leaves the slice equal to the reserved list |
| Buyer.ReserveAt | application/buyer/buyer.go:329-339 | at the matching record the slice becomes the reserved list, and no later record has the line's key |
| Buyer.Shop.constructor | application/buyer/buyer.go:27-29 | the cart starts empty |
| Buyer.Shop.ClearCart | application/buyer/buyer.go:189-193 | the cart is replaced by an empty list, Head nil and Size 0 (also done at line 286 of the same file) |
| Buyer.Shop.AddToCart | application/buyer/buyer.go:62-86 | the cart becomes the merge of the old cart and the line |
| Buyer.Shop.AddFromForm | application/buyer/buyer.go:125-155 | an empty product_id adds nothing and does not panic; a malformed posted item panics; in both cases the cart is left alone; otherwise the parsed item with the posted quantity is merged in |
| Buyer.Shop.Checkout | application/buyer/buyer.go:194-231 | if the inventory cannot be fetched, the cart is untouched; otherwise the cart keeps exactly the failed lines in order, success is the conjunction over all lines, the calls are recorded, and the invoice goes out only on full success |
| Buyer.Shop.RemoveCartItems | application/buyer/buyer.go:323-344 | the stock shown is the available list with every cart line reserved, and the cart is not modified |
| Buyer.SellAll | application/buyer/buyer.go:201-224 | the loop leaves exactly the lines whose call failed, reports success exactly when the cart ends empty, and records every call |
| Buyer.CheckoutRound | application/buyer/buyer.go:204-224 | one round keeps the loop's relation between the lines seen, the cart, the flag and the calls |
| Buyer.CheckoutLine | application/buyer/buyer.go:205-222 | the line's updateDB result; on success that line alone is removed from the cart |
| Server.Swept | application/server/server.go:486-493 | no session that has not expired is removed |
| Server.Expired | application/server/server.go:486-493 | a session touched at the current time is not expired; one from the zero time is, once SessionExpireTime has passed |
| Server.SweptProperties | application/server/server.go:486-493 | a sweep removes exactly the expired sessions, sweeping twice at the same time changes nothing more, and a well-formed table stays well formed |
| Server.WellFormedAdd | application/server/server.go:285-315 | a session for a user who has none keeps one session per user |
| Server.FindInMap | application/server/server.go:549-556 | true exactly when some session belongs to the user |
| Server.AlreadyLoggedIn | application/server/server.go:469-480 | a logged-in request has a cookie whose token is in the table with a non-empty user |
| Server.CheckTimeOut | application/server/server.go:499-517 | for a stored token, timed out exactly when its session has expired or the cookie's MaxAge is negative; a negative MaxAge always times out |
| Server.LoginSanitization | application/server/server.go:641-664 | accepted exactly when the name is a letter followed by letters, digits and `_`, and the password holds neither `\s` nor `%00` |
| Server.LoggedInIsKnownToken | application/server/server.go:469-480 | being logged in is holding a cookie with MaxAge >= 0 whose token is in the table |
| Server.UnknownTokenTimedOut | application/server/server.go:499-517 | an unknown token dates from the zero time and so has timed out |
| Server.TimeOutIsSweep | application/server/server.go:499-517 | for a live cookie, having timed out is exactly what makes the sweep remove the session |
| Server.UsernamePatternShape | application/server/server.go:648 | the name pattern accepts exactly a letter followed by word characters |
| Server.PatternNeedsNoQuoting | application/server/server.go:643-648 | a name the pattern accepts never needs quoting |
| Server.PasswordWithoutMarkersPasses | application/server/server.go:655-656 | a password with no backslash and no `%` passes, whatever white space it holds |
| Server.SignupSanitization | application/server/server.go:585-619 | it accepts exactly what loginSanitization accepts and changes only the username; the name is lower-cased exactly when it passes the name checks and kept as typed otherwise; an accepted name stays accepted |
| Server.LowercasedNameStillPasses | application/server/server.go:597-603 | lowercasing an accepted name gives an accepted name with no upper-case letter |
| Server.SessionServer.constructor | application/server/server.go:77-90 | no sessions, the registered users, and the sweep time at the zero time |
| Server.SessionServer.CleanupSessions | application/server/server.go:486-493 | the table becomes the sweep of the old one, and the sweep time is set to now afterwards |
| Server.SessionServer.Login | application/server/server.go:251-373 | the sweep runs first only when more than CleanSessionTime has passed; a user who already has a session is rejected with no new entry; admin succeeds only on the exact name and password; any success adds exactly token ↦ (username, now) and picks the role |
| Server.SessionServer.Logout | application/server/server.go:378-403 | without a cookie it only redirects; otherwise the token's session is removed, and an absent token leaves the table unchanged |
| Server.SessionServer.DeleteSession | application/server/server.go:409-423 | without a cookie it panics; otherwise the token's session is removed, idempotently |
| Server.SessionServer.ExtendSession | application/server/server.go:522-543 | a live cookie with a user gets its last activity set to now, the user unchanged; otherwise nothing changes |
| Server.SessionServer.ActiveSession | application/server/server.go:429-442 | a request that is not logged in or has timed out is inactive and its session removed; otherwise it is active and its session extended |
| Server.SessionServer.GetUser | application/server/server.go:445-460 | the registered user behind the cookie's session, or the zero user |
| Server.SessionServer.Signup | application/server/server.go:125-244 | registration happens exactly when not logged in, the sign-up button is posted, the name as typed is not the admin name, validation and sanitisation pass, the lower-cased name is new, and hashing and insertion succeed; it stores the lower-cased name with the buyer flag |
| SellerApi.GetARecord | sellerAPI/sellerAPIdb.go:57-79 | a record found is the one stored under (item, seller) |
| SellerApi.GetARecordFinds | sellerAPI/sellerAPIdb.go:75-78 | in a table keyed by its records, a lookup succeeds exactly for a stored pair of non-empty names |
| SellerApi.Edit | sellerAPI/sellerAPIdb.go:103-112 | the record under (item, seller) is replaced by the body under the body's own key, and every other record stays |
| SellerApi.DeleteForgets | sellerAPI/sellerAPI.go:122-132 | after a DELETE the record is not found, so a repeated DELETE answers 404; no other lookup changes |
| SellerApi.StoredIsFound | sellerAPI/sellerAPI.go:152-160 | a record accepted by POST is what a following GET returns |
| SellerApi.EditedIsFound | sellerAPI/sellerAPI.go:190-196 | after an edit the new record is found under its own names, and a renamed item is gone from its old name |
| SellerApi.ItemStore.constructor | sellerAPI/sellerAPI.go:41-52 | the table and the two API keys the service starts with |
| SellerApi.ItemStore.GetOrDelete | sellerAPI/sellerAPI.go:112-132 | an absent record gives 404 and no change; GET returns the record; DELETE removes only that record with 202 |
| SellerApi.ItemStore.PutExisting | sellerAPI/sellerAPI.go:165-201 | a missing or invalid body gives 422; a stored path key is edited with 202; otherwise a stored body key gives 422 |
| SellerApi.ItemStore.SellerEditItems | sellerAPI/sellerAPI.go:102-203 | a bad key gives 404; only a 201 or 202 changes the table; POST checks the body, answers 409 for an existing key and inserts with 201; PUT edits with 202, refuses a stored body key with 422, or inserts with 201; without a JSON content type nothing changes |
| SellerApi.ItemStore.BuyerEditItems | sellerAPI/sellerAPI.go:223-300 | as the seller handler for GET and DELETE; POST gives 405; PUT only edits a stored record, and when neither key is stored it gives 405 and inserts nothing |
| Client.NamePatternShape | client/main.go:291-292 | the pattern accepts exactly: at least two characters, a letter first, then word characters and spaces |
| Client.IsValidString | client/main.go:290-304 | a name is valid exactly when it has 2 to 32 characters, a letter first, and only word characters and spaces after it |
| Client.IsValidInt | client/main.go:307-313 | a quantity is valid exactly when it is not negative |

## Left out

- Floating point: `Cost` is a real. It is only copied and sign-checked here. `computeTotalCost` and the invoice totals are not modelled.
- SQL: the item table and the user database are maps. Query text, collation and case-insensitive matching are not modelled.
- `SellerApi.Edit`: the SQL update of a record onto another record's (item, seller) pair is modelled as replacing that record. The table's schema is not part of this model, so a duplicate row or a failed update is not captured.
- Buyer.Shop.AddFromForm: BuyerHandler returns before any add when the inventory fetch fails (application/buyer/buyer.go:42-46). The fetch belongs to the page rendering, so the add is modelled on its own and that early return is not part of it.
- Foreign libraries are parameters:
  - bcrypt is the `passwordMatches` and `hashOk` flags;
  - UUID generation is the `token` option;
  - the struct validator is the `validationOk` flag;
  - the strconv wrappers are the `toInt` and `toFloat` functions;
  - the inventory service is the `inventory` oracle and the `fetched` option.
- JSON decoding of request bodies is not modelled. The handler receives the decoded record, or nothing when the body cannot be read.
- HTTP plumbing is not modelled: templates, messages to templates, redirects, routing, setting cookies and the e-mail invoice. The cookie is its value and its MaxAge.
- The clock is read once per handler call and passed in as integer seconds.
- Concurrency: the sweep goroutine started by login, the extension goroutine and the mutex in `AddNode` run as sequential steps. Races between requests are not modelled.
- `Buyer.Shop.RemoveCartItems`: requires the available list to have unique keys. With duplicate keys the in-place deletion can skip a record; that case is not modelled.
- The item filter in `LookForItemHandler`, the listing handlers `seller_allitems` and `buyer_allitems`, and `initializeMapUsers` are not modelled. The session server's constructor takes the registered users instead.
- Go `int` overflow is not modelled; quantities are unbounded integers.
- The console client's input loops and its network calls are not modelled.
