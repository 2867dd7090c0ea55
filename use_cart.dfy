/*
 * The CartProvider component of src/hooks/useCart.tsx as an object: the
 * in-memory cart and the snapshot kept under '@RocketShoes:cart' are two
 * fields.  Each operation works on a copy of the cart and either returns
 * early without touching either field, or sets the cart and then writes the
 * snapshot.  The `writable` flag says whether that storage write succeeds;
 * when it throws, the new cart is in memory, the snapshot is the old one and
 * the operation reports its error.
 */
module UseCart {
  import opened CartSpec
  import opened CartProperties

  class CartProvider<Meta> {
    /** The cart state (`useState<Product[]>`). */
    var cart: seq<Item<Meta>>
    /** The stored snapshot; None while the storage key is absent. */
    var stored: Option<seq<Item<Meta>>>

    /** Seeds the cart from the stored snapshot, or with the empty cart when
        there is none.  The snapshot is taken as it is: nothing checks that
        it satisfies WellFormed. */
    constructor (snapshot: Option<seq<Item<Meta>>>)
      ensures stored == snapshot
      ensures cart == Restore(snapshot)
      ensures snapshot.None? ==> cart == []
      ensures Mirrors(stored, cart)
    {
      stored := snapshot;
      if snapshot.Some? {
        cart := snapshot.value;
      } else {
        cart := [];
      }
    }

    /** Adds one unit of a product, checked against its stock. */
    method AddProduct(productId: int, inv: Inventory<Meta>, writable: bool) returns (outcome: Outcome)
      modifies this
      ensures cart == AddStep(old(cart), productId, inv).cart
      ensures outcome == Settle(AddStep(old(cart), productId, inv).outcome, writable)
      ensures stored == if outcome == Committed then Some(cart) else old(stored)
      ensures writable && outcome != Committed ==> cart == old(cart)
      ensures writable && old(Mirrors(stored, cart)) ==> Mirrors(stored, cart)
      ensures old(WellFormed(cart)) ==> WellFormed(cart)
    {
      if WellFormed(cart) {
        AddPreservesWellFormed(cart, productId, inv);
      }
      var newCart := cart;
      var existing := Find(newCart, productId);
      var stock := StockOf(inv, productId);
      if stock.None? {
        return Failed;
      }
      var currentAmount := if existing.Some? then newCart[existing.value].amount else 0;
      if currentAmount + 1 > stock.value {
        return StockExceeded;
      }
      if existing.Some? {
        var i := existing.value;
        newCart := newCart[i := newCart[i].(amount := currentAmount + 1)];
      } else {
        var product := ProductOf(inv, productId);
        if product.None? {
          return Failed;
        }
        newCart := newCart + [Item(productId, 1, product.value)];
      }
      cart := newCart;
      if !writable {
        return Failed;
      }
      stored := Some(newCart);
      outcome := Committed;
    }

    /** Removes the item of a product; an error when there is none. */
    method RemoveProduct(productId: int, writable: bool) returns (outcome: Outcome)
      modifies this
      ensures cart == RemoveStep(old(cart), productId).cart
      ensures outcome == Settle(RemoveStep(old(cart), productId).outcome, writable)
      ensures stored == if outcome == Committed then Some(cart) else old(stored)
      ensures writable && outcome != Committed ==> cart == old(cart)
      ensures writable && old(Mirrors(stored, cart)) ==> Mirrors(stored, cart)
      ensures old(WellFormed(cart)) ==> WellFormed(cart)
    {
      if WellFormed(cart) {
        RemovePreservesWellFormed(cart, productId);
      }
      var updatedCart := cart;
      var product := Find(updatedCart, productId);
      if product.Some? {
        var updatedList := Without(updatedCart, productId);
        cart := updatedList;
        if !writable {
          return Failed;
        }
        stored := Some(updatedList);
        outcome := Committed;
      } else {
        outcome := Failed;
      }
    }

    /** Sets the amount of an existing item, checked against its stock.
        A failed storage write after `setCart` leaves the new cart in memory
        and the old snapshot in storage. */
    method UpdateProductAmount(productId: int, amount: int, inv: Inventory<Meta>, writable: bool) returns (outcome: Outcome)
      modifies this
      ensures cart == UpdateStep(old(cart), productId, amount, inv).cart
      ensures outcome == Settle(UpdateStep(old(cart), productId, amount, inv).outcome, writable)
      ensures stored == if outcome == Committed then Some(cart) else old(stored)
      ensures writable && outcome != Committed ==> cart == old(cart)
      ensures writable && old(Mirrors(stored, cart)) ==> Mirrors(stored, cart)
      ensures old(WellFormed(cart)) ==> WellFormed(cart)
    {
      if WellFormed(cart) {
        UpdatePreservesWellFormed(cart, productId, amount, inv);
      }
      if amount <= 0 {
        return NoOp;
      }
      var newCart := cart;
      var existing := Find(newCart, productId);
      var stock := StockOf(inv, productId);
      if stock.None? {
        return Failed;
      }
      var currentAmount := if existing.Some? then amount else 0;
      if currentAmount <= 0 {
        return NoOp;
      }
      if currentAmount > stock.value {
        return StockExceeded;
      }
      if existing.Some? {
        var i := existing.value;
        newCart := newCart[i := newCart[i].(amount := amount)];
      }
      cart := newCart;
      if !writable {
        return Failed;
      }
      stored := Some(newCart);
      outcome := Committed;
    }
  }

  /** Example scenarios, proved from the method contracts alone. */
  method Scenarios()
  {
    // Adding beyond stock to an empty cart: rejected, cart stays empty.
    var p := new CartProvider<string>(None);
    var none := Inventory(map[1 := 0], map[1 := "Tenis"], true);
    var o := p.AddProduct(1, none, true);
    assert o == StockExceeded && p.cart == [] && p.stored == None;

    // Adding twice with stock 5: one item of amount 2, stored too.
    var five := Inventory(map[1 := 5], map[1 := "Tenis"], true);
    o := p.AddProduct(1, five, true);
    assert o == Committed && p.cart == [Item(1, 1, "Tenis")];
    o := p.AddProduct(1, five, true);
    assert o == Committed && p.cart == [Item(1, 2, "Tenis")];
    assert p.stored == Some(p.cart);

    // Updating beyond stock: rejected, amount unchanged.
    var one := Inventory(map[1 := 1], map[1 := "Tenis"], true);
    o := p.UpdateProductAmount(1, 5, one, true);
    assert o == StockExceeded && p.cart == [Item(1, 2, "Tenis")];

    // A non-positive amount: silent, nothing changes.
    o := p.UpdateProductAmount(1, 0, one, true);
    assert o == NoOp && p.cart == [Item(1, 2, "Tenis")];

    // The services unreachable: the add error, nothing changes.
    var down := Inventory(map[1 := 5], map[1 := "Tenis"], false);
    o := p.AddProduct(1, down, true);
    assert o == Failed && p.cart == [Item(1, 2, "Tenis")];

    // Removing the present item empties the cart; removing again fails.
    o := p.RemoveProduct(1, true);
    assert o == Committed && p.cart == [] && p.stored == Some([]);
    o := p.RemoveProduct(1, true);
    assert o == Failed && p.cart == [];

    // A new provider seeded from the snapshot sees the same cart.
    var q := new CartProvider<string>(p.stored);
    assert q.cart == p.cart;

    // The storage write throws: the new cart stays in memory, the snapshot
    // keeps the old one and the add error is reported.
    o := q.AddProduct(1, five, false);
    assert o == Failed && q.cart == [Item(1, 1, "Tenis")] && q.stored == Some([]);
  }
}
