# Grocery storefront: selection, cart and checkout model

This project is a Dafny model of the client-side logic of a small grocery storefront (`js/script.js`). It covers:

- **Listing page.** The loaded catalog of products, each with its quantity options. The selection table `productState` keeps, per product id, the chosen option index and whether the product is ticked. The handlers change that table: choose an option, tick or untick one product, select all. A running total is computed over it.
- **Cart.** `addToCart` refuses a selection of fewer than ten products, with a message naming the count. Otherwise it copies the selected products into a denormalised cart. The cart goes into the single local-storage slot `groceryCart`.
- **Summary, payment and checkout pages.** They read the slot back and show its total. The payment page builds the address of a PromptPay QR image. The checkout page redirects to the shop on an empty cart.
- **`submitOrder`.** The submit button is disabled while the order is sent and written back afterwards. The cart is deleted once the email service accepts the order.

Modules:

| module | file | contents |
|---|---|---|
| `Wrappers` | `wrappers.dfy` | `Option` |
| `Decimal` | `decimal.dfy` | decimal numerals of whole numbers and their parsing |
| `KeyOrder` | `keyorder.dfy` | the ascending order in which integer object keys are enumerated |
| `Catalog` | `catalog.dfy` | products, the selection table, its updates and the running total, as functions |
| `Cart` | `cart.dfy` | cart items, the snapshot `addToCart` stores, the storage slot (class `CartStorage`) |
| `Store` | `store.dfy` | class `Storefront`: the catalog and the table, with the handlers as methods |
| `PromptPay` | `promptpay.dfy` | the QR address builder and a reader that recovers phone and amount from it |
| `Pages` | `pages.dfy` | what the summary, payment and checkout pages compute when they load |
| `Checkout` | `checkout.dfy` | class `SubmitButton` and the `submitOrder` state machine |

How the model is organised:

- **Handlers as methods.** The handlers that update `productState` in place are methods of `Store.Storefront`. Each has a `modifies` clause. Each is proved to produce the table given by a function in `Catalog`. The properties (validity kept, totals, select-all toggling) are lemmas about those functions.
- **The key order of `addToCart`.** `addToCart` visits the selected ids in the order `Object.keys` lists them. For array-index keys (integers below 2^32 - 1), which every product id is taken to be, that is ascending numeric order, not catalog order. The model lists them that way (`KeyOrder.Ascending`). It proves that the stored cart is still a faithful copy and that its prices add up to the running total, which sums in catalog order.
- **Payment image.** The payment-page image address has a partner reader, `PromptPay.ReadQR`. The builder and the reader are shown to be inverse on positive amounts.

## Model

| member | source | states |
|---|---|---|
| `Store.Storefront.constructor` | js/script.js:29-41 | after the catalog is decoded, every product has an entry with option 0 and unticked, and the store invariant holds |
| `Catalog.InitialStateMatches` | js/script.js:36-41 | the initial table has an entry for exactly the catalog's ids, each with a valid option index |
| `Catalog.FindProduct` | js/script.js:203 | the lookup returns a catalog product with the requested id, and returns nothing exactly when no product has that id |
| `Catalog.FindEach` | js/script.js:203 | with distinct ids, the lookup of a product's id finds that product |
| `Store.Storefront.SetProductOption` | js/script.js:118-126 | the table becomes `SetOption` of the old table; the invariant is kept when the index is one of the product's options |
| `Catalog.SetOption` | js/script.js:118-126 | only the option index of the given id changes; same keys; an unknown id leaves the table unchanged |
| `Catalog.SetOptionKeepsValid` | js/script.js:118-126 | choosing an in-range option keeps one valid entry per product |
| `Store.Storefront.ToggleProduct` | js/script.js:128-133 | the table becomes `Toggle` of the old table, and the invariant is kept |
| `Catalog.Toggle` | js/script.js:128-133 | only the ticked flag of the given id changes; same keys; an unknown id leaves the table unchanged |
| `Catalog.ToggleKeepsValid` | js/script.js:128-133 | ticking or unticking keeps one valid entry per product |
| `Catalog.ToggleOnAddsPrice` | js/script.js:128-133 | ticking an unticked product raises the running total by exactly its chosen price and the count by one |
| `Catalog.ToggleOffRemovesPrice` | js/script.js:128-133 | unticking a ticked product lowers the running total by exactly its chosen price and the count by one |
| `Store.Storefront.SelectAll` | js/script.js:135-144 | the table becomes `SelectAllTable` of the old table, and the invariant is kept |
| `Catalog.SelectAllTableSpec` | js/script.js:135-144 | every catalog product gets the negation of "all were ticked"; option indices are untouched; other entries are unchanged |
| `Catalog.SelectAllKeepsValid` | js/script.js:135-144 | select-all keeps one valid entry per product |
| `Catalog.SelectAllFromAll` | js/script.js:135-144 | from a fully ticked catalog, select-all unticks everything, and a second select-all restores the table |
| `Catalog.SelectAllFromPartial` | js/script.js:135-144 | from a partly ticked catalog, select-all ticks everything, and a second one unticks everything |
| `Catalog.SelectAllTwice` | js/script.js:135-144 | two select-alls restore the table if and only if all or none were ticked; otherwise they leave none ticked |
| `Store.Storefront.CalculateTotal` | js/script.js:146-163 | the returned total is the sum of the chosen prices of the ticked products, in catalog order |
| `Catalog.NoneSelectedTotal` | js/script.js:146-163 | with nothing ticked, the total and the count are zero |
| `KeyOrder.AscendingSpec` | js/script.js:192 | the key listing is strictly increasing and holds exactly the keys of the table |
| `Cart.SelectedIdsSpec` | js/script.js:192 | the selected ids are strictly ascending and are exactly the ids whose entry is ticked |
| `Store.Storefront.SelectedKeyList` | js/script.js:192 | the loop over the keys, least first, yields exactly the selected ids in ascending order |
| `Cart.MinimumMessageReportsCount` | js/script.js:195-197 | the refusal message is the fixed prefix, the decimal count and a full stop, and the count reads back from it |
| `Store.Storefront.BuildCartItems` | js/script.js:200-217 | the pushed items are the snapshot of the given ids: one item per id whose product and entry exist |
| `Cart.SnapshotStandard` | js/script.js:208-215 | every stored item carries the "Standard" package |
| `Store.Storefront.AddToCart` | js/script.js:191-219 | fewer than ten ticked: the count message, storage untouched; otherwise the snapshot in ascending id order overwrites the slot |
| `Cart.CartSnapshotSpec` | js/script.js:191-217 | the stored cart has the selected ids in ascending order and as many rows as the running count; each row copies its product's id, name and image and its chosen option's label and price; the prices add up to the running total |
| `Cart.CatalogTotal` | js/script.js:146-157 | the running total and count equal the chosen prices and the number of the ticked ids, in catalog order |
| `Cart.IdsTotalReorder` | js/script.js:192 | summing chosen prices over two duplicate-free lists of the same ids gives the same total, so the key order does not change it |
| `Cart.CartStorage.LoadCart` | js/script.js:229-232 | the stored items, or the empty cart when the slot is absent |
| `Cart.CartStorage.SetItem` | js/script.js:219 | the slot holds the given items afterwards and reads back as them |
| `Cart.CartStorage.RemoveItem` | js/script.js:411 | the slot is absent afterwards and reads back as the empty cart |
| `Pages.InitSummary` | js/script.js:234-266 | an empty cart shows the empty notice with total "0"; otherwise the rows of the cart and the sum of their prices |
| `Pages.SummaryDetails` | js/script.js:248-249 | the package line starts with the quantity label and is exactly that label if and only if the package is "Standard" |
| `Pages.InitPayment` | js/script.js:274-286 | the amount is the cart total; the image address is empty exactly for a zero total, and otherwise reads back as the demo phone and that amount |
| `PromptPay.AmountField` | js/script.js:295 | the amount field is all digits and ends in "00"; its value is a hundred times the amount |
| `PromptPay.GeneratePromptPayQR` | js/script.js:288-299 | the address is empty if and only if the amount is not positive |
| `PromptPay.ReadGenerated` | js/script.js:288-299 | every address built for a positive amount reads back as its phone and amount |
| `PromptPay.GeneratedRead` | js/script.js:288-299 | every address that reads back is the one built for the phone and amount it reads as |
| `PromptPay.GenerateInjective` | js/script.js:288-299 | distinct phone-amount pairs with positive amounts give distinct addresses |
| `Decimal.ParseDigits` | js/script.js:295 | the decimal numeral of a whole number reads back as that number |
| `Decimal.DigitsInjective` | js/script.js:295 | distinct whole numbers have distinct numerals |
| `Pages.InitCheckout` | js/script.js:329-342 | redirects to the shop if and only if the cart is empty; otherwise shows the cart total |
| `Checkout.SubmitOrder` | js/script.js:344-406 | the button is disabled with "Processing..."; a missing or placeholder configuration restores it, reports the configuration toast and sends nothing; otherwise the request carries the stored cart and its total |
| `Checkout.OnSendSettled` | js/script.js:408-440 | acceptance deletes the slot and shows "Sent!", leaving the button disabled; rejection keeps the slot, re-enables the button with its original label and picks the failure toast |
| `Checkout.SubmitAndSettle` | js/script.js:344-440 | over a whole submission the cart is deleted only when the configuration is valid and the service accepts; in every other case the cart and the button label are as before and the button is enabled |
| `Checkout.FailureMessage` | js/script.js:433-437 | the invalid-user toast is chosen if and only if the error text contains "The user is invalid"; otherwise the generic one |
| `Checkout.ItemDetails` | js/script.js:359 | the emailed quantity cell starts with the quantity label and is exactly that label if and only if the package is "Standard" |
| `Checkout.SnapshotDetails` | js/script.js:208-215 | a cart stored by the listing page is emailed with the bare quantity labels |

## Left out

- Rendering: the product cards, the summary rows, the toasts and the modal are HTML strings and DOM updates. The model keeps the values they are built from (rows, totals, messages) and not their markup.
- `toLocaleString` formatting of totals is not modelled. The views carry the numbers. Only the empty summary's literal "0" is text.
- Network and I/O: `fetch` of the catalog and its HTTP error path are left out. The catalog is a constructor argument. The EmailJS call is left out too; its outcome is an input to `Checkout.OnSendSettled`.
- `JSON.stringify`/`JSON.parse` of the cart are left out. The slot holds the item list itself.
- A slot whose text is not valid JSON is not modelled. `loadCart` does not catch the exception `JSON.parse` throws, so such a slot does not read as the empty cart; the model follows the code and has no such state.
- Timers and navigation are left out: the delayed redirect after `addToCart`, the modal's transition delay, and the page redirects. `proceedToCheckout`, `payWithStripe` and `payWithOmise` are left out too: they only navigate or show a toast.
- Concurrency: the promise callbacks of the email send are modelled as a second step (`Checkout.OnSendSettled`) after `Checkout.SubmitOrder`. Events that could run in between are not modelled.
- Re-rendering and the total refresh that the handlers trigger are left out. `Store.Storefront.CalculateTotal` is a separate method.
- Id coercion: `addToCart` reads ids as strings and converts them with `parseInt`. The model keeps ids as natural numbers throughout.
- Ids of 2^32 - 1 or more are not modelled. `Object.keys` lists such keys after the array-index keys, in insertion order, so for them `Cart.CartSnapshotSpec`'s ascending order would not describe what `addToCart` does. The model takes every product id to be below 2^32 - 1.
- Prices are whole numbers (`nat`), not floating point.
- `PromptPay.AmountField`: models `toFixed(2)` only for whole amounts, because prices are whole numbers. Amounts of 10^21 or more, which `toFixed` writes in exponential notation, are not modelled. Neither is the loss of precision above 2^53.
- `Store.Storefront.SetProductOption`: requires the option index to be one of the product's options. That is the only index the rendered tabs pass; the source itself does not check it.
- `Store.Storefront.constructor`: requires a catalog with distinct ids and at least one option per product. The source assumes both of its data file.
- `Catalog.SelectAllTwice` and the other select-all members assume every catalog product has an entry. The source would throw on a missing one.
- `Checkout.SubmitOrder`: the customer's form fields are an input record. The HTML table of the email body is reduced to the items and the total it is built from, plus the quantity cell `Checkout.ItemDetails`.
- Three text literals are kept character for character as the code has them: the "Processing..." and "Sent!" button labels and the summary row's separator. In the code their emoji and the bullet appear mis-decoded, each as three other characters (`Checkout.ProcessingLabel`, `Checkout.SentLabel`, `Pages.Separator`). The model does not read them as the symbols they were meant to be.
- The QR payload does not follow the EMVCo merchant-presented layout. It has no tag 54 before the amount and no CRC value after "6304". Its length fields ("37", "13") also fit a nine-digit phone rather than the ten-digit demo number. The model builds the string exactly as the code does.
