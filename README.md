# RocketShoes cart state machine in Dafny

This project models the shopping-cart component `CartProvider` of the
RocketShoes storefront (`src/hooks/useCart.tsx`). The component keeps an
ordered list of line items. Each item has a product id, an amount and
product metadata. The component offers three operations:

- `addProduct(id)` checks stock. It then raises the amount of an existing
  item by one, or fetches the product and appends it with amount 1.
- `removeProduct(id)` filters out the item for the id. It reports an
  error when there is none.
- `updateProductAmount({id, amount})` sets an existing item's amount after
  checking it against stock. A non-positive amount or an absent item is a
  silent no-op.

Every committed change sets the cart and is then written through to the
snapshot kept in local storage under `@RocketShoes:cart`. That snapshot
seeds the cart on start.

Files:

- `cart_spec.dfy` (module `CartSpec`) holds the values. These are `Item`,
  `Inventory`, the `Outcome` of an operation and the `Step` it produces.
  It also holds `Find` (`Array.find`) and `Without` (`Array.filter`), the
  cart invariant `WellFormed`, and the three operations as specification
  functions `AddStep`, `RemoveStep` and `UpdateStep`.
- `cart_properties.dfy` (module `CartProperties`) proves each branch of
  each operation. It also proves how the amount held of every product
  moves, and that the invariant holds for every sequence of operations
  (`Run`).
- `use_cart.dfy` (module `UseCart`) holds the component as a class. It
  has a `cart` field and a `stored` snapshot field. Each method works on a
  copy of the cart and returns early on rejection, as the source does. Its
  contract ties the new state to the specification function and says the
  snapshot is written exactly when the operation commits. A `writable`
  flag says whether the storage write succeeds. When it throws, the new
  cart stays in memory, the snapshot keeps the old cart and the operation
  reports its error (`Settle`). `Scenarios` holds example scenarios, proved
  from the method contracts alone.

The modelled outcomes stand for the notifications:

- `Committed` and `NoOp` are silent.
- `StockExceeded` is the "Quantidade solicitada fora de estoque" toast.
- `Failed` is the operation's generic error toast: adding, removing or
  changing the quantity.

The remote services are an `Inventory` value. It holds a stock map, a
catalog map and a `reachable` flag. A call fails when the flag is off or
the map has no entry for the id. A failed call takes the catch branch.

Two details of the code shape the model:

- `updateProductAmount` returns at line 89 for an absent item, before
  `setCart` and `localStorage.setItem`. The snapshot is not written, so a
  missing storage key stays missing.
- Line 28 parses a present snapshot without any guard. The model takes a
  present snapshot as it is and does not assume it is `WellFormed`. The
  invariant lemmas therefore start from a well-formed cart or from no
  snapshot.

## Model

| member | source | states |
|---|---|---|
| CartSpec.Find | src/hooks/useCart.tsx:36 | the answer is the first index whose item has the id; None exactly when no item has it |
| CartSpec.Without | src/hooks/useCart.tsx:69 | the result holds only items of the input, none with the id, and every input item with another id |
| CartSpec.AmountOf | src/hooks/useCart.tsx:36-40 | the amount of the first item with the id, 0 when there is none (`currentAmount`); in a cart of positive amounts it is at least 1 exactly when the product is present |
| CartSpec.AddStep | src/hooks/useCart.tsx:33-62 | computes the outcome and new cart of addProduct; it never ends in NoOp, leaves the cart as it was unless it commits, and commits only below stock; branch by branch in the Add* rows |
| CartSpec.RemoveStep | src/hooks/useCart.tsx:64-76 | computes the outcome and new cart of removeProduct; it commits or fails, leaves the cart as it was unless it commits, and leaves no item with the id; branch by branch in the Remove* rows |
| CartSpec.UpdateStep | src/hooks/useCart.tsx:78-106 | computes the outcome and new cart of updateProductAmount; the length never changes, the cart stays as it was unless it commits, and it commits only for a present item and a positive amount within stock; branch by branch in the Update* rows |
| CartSpec.Restore | src/hooks/useCart.tsx:25-31 | computes the initial cart: the stored snapshot, or empty when there is none; the result is mirrored by the snapshot it came from (converse in RestoreReturnsMirroredCart) |
| CartProperties.WithoutAt | src/hooks/useCart.tsx:69 | in a cart with unique ids, filtering a present id cuts out exactly that item and keeps the order of the rest |
| CartProperties.WithoutKeepsPresence | src/hooks/useCart.tsx:69 | filtering one id leaves every other product present exactly when it was |
| CartProperties.WithoutKeepsAmount | src/hooks/useCart.tsx:69 | filtering one id keeps the amount held of every other product |
| CartProperties.AddRejectsBeyondStock | src/hooks/useCart.tsx:37-44 | when the amount held (0 if absent) plus one exceeds stock, the outcome is StockExceeded and the cart is unchanged |
| CartProperties.AddFailsWithInventory | src/hooks/useCart.tsx:37-61 | a failed stock call, or a failed product call for a new item, gives Failed and an unchanged cart |
| CartProperties.AddIncrementsExisting | src/hooks/useCart.tsx:46-47 | an existing item within stock gets amount plus one; the length and every other item stay the same |
| CartProperties.AddAppendsNew | src/hooks/useCart.tsx:48-55 | an absent product within stock is appended with amount 1 and the catalog metadata; all prior items stay in order |
| CartProperties.AddMovesOneUnit | src/hooks/useCart.tsx:46-55 | a committed add makes the product present, raises its amount by one, and changes no lookup or amount of another product |
| CartProperties.AddPreservesWellFormed | src/hooks/useCart.tsx:36-55 | addProduct keeps ids unique and every amount at least 1 |
| CartProperties.RemoveAbsentFails | src/hooks/useCart.tsx:72-74 | removing an id no item carries gives Failed and an unchanged cart |
| CartProperties.RemoveCutsItem | src/hooks/useCart.tsx:66-71 | removing a present id from a cart with unique ids commits the old cart minus exactly that item, order preserved |
| CartProperties.RemoveMovesOnlyItsProduct | src/hooks/useCart.tsx:67-70 | a committed remove leaves no item with the id and keeps the presence and amount of every other product |
| CartProperties.RemovePreservesWellFormed | src/hooks/useCart.tsx:66-71 | removeProduct keeps ids unique and every amount at least 1 |
| CartProperties.UpdateNonPositiveIsNoOp | src/hooks/useCart.tsx:83 | a non-positive amount is a silent no-op on any cart |
| CartProperties.UpdateAbsent | src/hooks/useCart.tsx:85-89 | for an absent item the update is a silent no-op once stock answers, and Failed when the stock call fails |
| CartProperties.UpdateRejectsBeyondStock | src/hooks/useCart.tsx:91-94 | an existing item and an amount above stock give StockExceeded and an unchanged cart |
| CartProperties.UpdateSetsAmount | src/hooks/useCart.tsx:96-101 | an existing item and a positive amount within stock: only that item's amount becomes the requested one, length and order unchanged |
| CartProperties.UpdateMovesOnlyItsProduct | src/hooks/useCart.tsx:96-98 | a committed update makes the product's amount the requested one and changes no lookup and no other amount |
| CartProperties.UpdatePreservesWellFormed | src/hooks/useCart.tsx:83-98 | updateProductAmount keeps ids unique and every amount at least 1, thanks to the amount <= 0 guard |
| CartProperties.RejectionKeepsCart | src/hooks/useCart.tsx:33-106 | every step outcome other than Committed, before the storage write, leaves the cart unchanged; add and remove never end in NoOp |
| CartProperties.RunPreservesWellFormed | src/hooks/useCart.tsx:33-106 | any sequence of operations started on a well-formed cart ends on a well-formed cart |
| CartProperties.FreshStartStaysWellFormed | src/hooks/useCart.tsx:25-31 | without a stored snapshot the cart starts empty, and every cart reachable from it is well-formed |
| CartProperties.RestoreReturnsMirroredCart | src/hooks/useCart.tsx:26-28 | reloading the snapshot that write-through keeps gives back the cart exactly |
| UseCart.CartProvider.constructor | src/hooks/useCart.tsx:25-31 | the cart is the stored snapshot, or empty when there is none, and the snapshot mirrors it |
| UseCart.CartProvider.AddProduct | src/hooks/useCart.tsx:33-62 | the new cart is that of AddStep; the outcome is AddStep's, turned into Failed when a commit's storage write throws; the snapshot becomes the new cart exactly when the outcome is Committed and stays otherwise; with a working storage a rejection changes nothing and mirroring is kept; the invariant is kept |
| UseCart.CartProvider.RemoveProduct | src/hooks/useCart.tsx:64-76 | the new cart is that of RemoveStep; the outcome is RemoveStep's, turned into Failed when a commit's storage write throws; the snapshot becomes the new cart exactly when the outcome is Committed and stays otherwise; with a working storage a rejection changes nothing and mirroring is kept; the invariant is kept |
| UseCart.CartProvider.UpdateProductAmount | src/hooks/useCart.tsx:78-106 | the new cart is that of UpdateStep; the outcome is UpdateStep's, turned into Failed when a commit's storage write throws; the snapshot becomes the new cart exactly when the outcome is Committed and stays otherwise; with a working storage a rejection changes nothing and mirroring is kept; the invariant is kept |

## Left out

- React wiring is not modelled: `createContext`, the provider JSX and the `useCart` hook (lines 22, 108-121). They carry no logic.
- The HTTP calls `GET stock/{id}` and `GET products/{id}` are not modelled. An `Inventory` value stands for their answers, and its `reachable` flag or a missing entry stands for a failed call.
- The `toast.error` side effects are not modelled. The returned `Outcome` stands for them.
- JSON serialisation and the `localStorage` API are not modelled. The snapshot is a `seq<Item>` field, so a malformed snapshot and a parse failure at line 28 cannot be expressed. A storage write that throws (lines 57-58, 70-71, 100-101) is the `writable` flag; why it throws (quota, disabled storage) is not modelled.
- Async interleaving of overlapping calls is not modelled. Each operation runs atomically here, so the lost-update race between two overlapping `addProduct` calls is not captured.
- JavaScript object aliasing is not modelled. Items are values. In the source, `[...cart]` copies only the array, so `productExistis.amount = ...` (lines 47, 97) also changes the item object held by the previous state.
- Product metadata is an opaque type parameter, copied on insertion. The source builds the new item from the catalog answer (`...product.data`), so its id comes from the catalog. The model gives the new item the requested id, which assumes the catalog answers for the id it was asked about.
- Numbers are unbounded integers. JavaScript's floating-point numbers and a stock answer without an `amount` field are not modelled.
- CartProperties.UpdatePreservesWellFormed: "every amount at least 1" rests on amounts being integers. A fractional amount such as 0.5 passes the guard at line 83 and is stored at line 97 and written at line 101.
