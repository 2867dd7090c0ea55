/*
 * Values of the RocketShoes shopping cart (src/hooks/useCart.tsx) and the
 * pure specification of its three mutations.
 *
 * The cart is an ordered list of line items.  The remote stock and product
 * services are given as an Inventory value, and the outcome of an operation
 * stands for the toast notification the component shows (or does not show).
 */
module CartSpec {

  datatype Option<T> = None | Some(value: T)

  /** One line item: product id, quantity and opaque product metadata
      (title, price, image, ...) copied from the catalog when first added. */
  datatype Item<Meta> = Item(id: int, amount: int, meta: Meta)

  /** What the remote services answer at the moment of a call.  A call fails
      (the promise rejects) when the services are unreachable or when they
      know nothing about the product. */
  datatype Inventory<Meta> = Inventory(stock: map<int, int>, catalog: map<int, Meta>, reachable: bool)

  /** The result of an operation, standing for its notification:
      Committed and NoOp are silent, StockExceeded is the
      "out of stock" toast, Failed the operation's generic error toast. */
  datatype Outcome = Committed | NoOp | StockExceeded | Failed

  /** The outcome of an operation together with the cart it leaves behind. */
  datatype Step<Meta> = Step(outcome: Outcome, cart: seq<Item<Meta>>)

  /** `GET stock/{id}`: the available amount, or None when the call fails. */
  function StockOf<Meta>(inv: Inventory<Meta>, id: int): Option<int>
  {
    if inv.reachable && id in inv.stock then Some(inv.stock[id]) else None
  }

  /** `GET products/{id}`: the product metadata, or None when the call fails. */
  function ProductOf<Meta>(inv: Inventory<Meta>, id: int): Option<Meta>
  {
    if inv.reachable && id in inv.catalog then Some(inv.catalog[id]) else None
  }

  /** `cart.find(p => p.id === id)`: the index of the FIRST item with this id. */
  function Find<Meta>(s: seq<Item<Meta>>, id: int): (r: Option<nat>)
    ensures r.Some? ==> r.value < |s| && s[r.value].id == id
    ensures r.Some? ==> forall j :: 0 <= j < r.value ==> s[j].id != id
    ensures r.None? ==> forall j :: 0 <= j < |s| ==> s[j].id != id
  {
    if |s| == 0 then None
    else if s[0].id == id then Some(0)
    else match Find(s[1..], id)
      case None => None
      case Some(k) => Some(k + 1)
  }

  /** `cart.filter(p => p.id !== id)`: every item except those with this id. */
  function Without<Meta>(s: seq<Item<Meta>>, id: int): (r: seq<Item<Meta>>)
    ensures |r| <= |s|
    ensures forall k :: 0 <= k < |r| ==> r[k] in s && r[k].id != id
    ensures forall k :: 0 <= k < |s| && s[k].id != id ==> s[k] in r
  {
    if |s| == 0 then []
    else if s[0].id == id then Without(s[1..], id)
    else [s[0]] + Without(s[1..], id)
  }

  /** The amount the cart holds of a product: that of the first item with
      the id, or 0 when there is none (`currentAmount` of addProduct). */
  function AmountOf<Meta>(s: seq<Item<Meta>>, id: int): (r: int)
    ensures Find(s, id).None? ==> r == 0
    ensures PositiveAmounts(s) ==> (r >= 1 <==> Find(s, id).Some?)
  {
    match Find(s, id)
    case None => 0
    case Some(i) => s[i].amount
  }

  ghost predicate UniqueIds<Meta>(s: seq<Item<Meta>>)
  {
    forall i, j :: 0 <= i < j < |s| ==> s[i].id != s[j].id
  }

  ghost predicate PositiveAmounts<Meta>(s: seq<Item<Meta>>)
  {
    forall i :: 0 <= i < |s| ==> s[i].amount >= 1
  }

  /** The cart invariant: at most one item per product, every amount at least 1. */
  ghost predicate WellFormed<Meta>(s: seq<Item<Meta>>)
  {
    UniqueIds(s) && PositiveAmounts(s)
  }

  /** addProduct(id): query stock; reject when the amount held plus one
      exceeds it; otherwise raise the existing item by one, or fetch the
      product and append it with amount 1.  A failed call aborts. */
  function AddStep<Meta>(cart: seq<Item<Meta>>, id: int, inv: Inventory<Meta>): (r: Step<Meta>)
    ensures r.outcome != NoOp
    ensures r.outcome != Committed ==> r.cart == cart
    ensures r.outcome == Committed ==>
              StockOf(inv, id).Some? && AmountOf(cart, id) < StockOf(inv, id).value
  {
    match StockOf(inv, id)
    case None => Step(Failed, cart)
    case Some(stock) =>
      if AmountOf(cart, id) + 1 > stock then Step(StockExceeded, cart)
      else match Find(cart, id)
        case Some(i) => Step(Committed, cart[i := cart[i].(amount := cart[i].amount + 1)])
        case None =>
          match ProductOf(inv, id)
          case None => Step(Failed, cart)
          case Some(meta) => Step(Committed, cart + [Item(id, 1, meta)])
  }

  /** removeProduct(id): an error when no item has the id, otherwise the
      cart filtered of that id.  No remote call is made. */
  function RemoveStep<Meta>(cart: seq<Item<Meta>>, id: int): (r: Step<Meta>)
    ensures r.outcome == Committed || r.outcome == Failed
    ensures r.outcome != Committed ==> r.cart == cart
    ensures forall k :: 0 <= k < |r.cart| ==> r.cart[k].id != id
  {
    if Find(cart, id).None? then Step(Failed, cart)
    else Step(Committed, Without(cart, id))
  }

  /** updateProductAmount({id, amount}): silent for a non-positive amount;
      otherwise query stock (a failed call aborts, even for an absent item);
      silent for an absent item; reject an amount above stock; otherwise set
      the item's amount. */
  function UpdateStep<Meta>(cart: seq<Item<Meta>>, id: int, amount: int, inv: Inventory<Meta>): (r: Step<Meta>)
    ensures |r.cart| == |cart|
    ensures r.outcome != Committed ==> r.cart == cart
    ensures r.outcome == Committed ==>
              1 <= amount && Find(cart, id).Some? &&
              StockOf(inv, id).Some? && amount <= StockOf(inv, id).value
  {
    if amount <= 0 then Step(NoOp, cart)
    else match StockOf(inv, id)
      case None => Step(Failed, cart)
      case Some(stock) =>
        match Find(cart, id)
        case None => Step(NoOp, cart)
        case Some(i) =>
          if amount > stock then Step(StockExceeded, cart)
          else Step(Committed, cart[i := cart[i].(amount := amount)])
  }

  /** The cart seeded from the stored snapshot: the snapshot itself when one
      exists, the empty cart otherwise. */
  function Restore<Meta>(snapshot: Option<seq<Item<Meta>>>): (r: seq<Item<Meta>>)
    ensures Mirrors(snapshot, r)
  {
    match snapshot
    case None => []
    case Some(s) => s
  }

  /** The storage write that follows `setCart` inside the `try`: when it
      throws, the catch turns a commit into the operation's error toast,
      although the new cart is already in memory. */
  function Settle(o: Outcome, writable: bool): Outcome
  {
    if o == Committed && !writable then Failed else o
  }

  /** Write-through: the snapshot is the cart, or there is no snapshot yet
      and the cart is the empty one it was seeded with. */
  ghost predicate Mirrors<Meta>(stored: Option<seq<Item<Meta>>>, cart: seq<Item<Meta>>)
  {
    stored == Some(cart) || (stored.None? && cart == [])
  }
}
