/*
 * Properties of the cart operations of src/hooks/useCart.tsx, stated over
 * the specification functions of CartSpec: what each branch of each
 * operation does to the cart, how the amount held of every product moves,
 * and that the cart invariant (unique ids, amounts at least 1) is kept by
 * every operation and so by every sequence of operations.
 */
module CartProperties {
  import opened CartSpec

  // ---------------------------------------------------------------------
  // Lookup and filtering
  // ---------------------------------------------------------------------

  /** An index whose item carries the id and is preceded by none that does
      is the one Find answers. */
  lemma FindFirst<Meta>(s: seq<Item<Meta>>, id: int, i: nat)
    requires i < |s| && s[i].id == id
    requires forall j :: 0 <= j < i ==> s[j].id != id
    ensures Find(s, id) == Some(i)
  {
    match Find(s, id)
    case None =>
    case Some(k) =>
      assert !(k < i) && !(i < k);
  }

  /** Appending an item leaves the lookup of every id already present
      where it was, and finds the new item for its id otherwise. */
  lemma FindAppend<Meta>(s: seq<Item<Meta>>, x: Item<Meta>, id: int)
    ensures Find(s + [x], id) ==
            if Find(s, id).Some? then Find(s, id)
            else if x.id == id then Some(|s|)
            else None
  {
    var t := s + [x];
    match Find(s, id)
    case Some(i) => FindFirst(t, id, i);
    case None =>
      if x.id == id {
        FindFirst(t, id, |s|);
      } else {
        assert forall j :: 0 <= j < |t| ==> t[j].id != id by {
          forall j | 0 <= j < |t| ensures t[j].id != id {
            if j < |s| { assert t[j] == s[j]; }
          }
        }
      }
  }

  /** Changing an item's amount leaves every lookup by id unchanged. */
  lemma FindSetAmount<Meta>(s: seq<Item<Meta>>, i: nat, a: int, id: int)
    requires i < |s|
    ensures Find(s[i := s[i].(amount := a)], id) == Find(s, id)
  {
    var t := s[i := s[i].(amount := a)];
    assert forall j :: 0 <= j < |s| ==> t[j].id == s[j].id;
    match Find(s, id)
    case Some(k) => FindFirst(t, id, k);
    case None =>
  }

  /** Filtering distributes over concatenation. */
  lemma {:induction false} WithoutConcat<Meta>(a: seq<Item<Meta>>, b: seq<Item<Meta>>, id: int)
    ensures Without(a + b, id) == Without(a, id) + Without(b, id)
  {
    if |a| > 0 {
      assert (a + b)[1..] == a[1..] + b;
      WithoutConcat(a[1..], b, id);
    } else {
      assert a + b == b;
    }
  }

  /** Filtering out an id no item carries changes nothing. */
  lemma {:induction false} WithoutAbsent<Meta>(s: seq<Item<Meta>>, id: int)
    requires forall j :: 0 <= j < |s| ==> s[j].id != id
    ensures Without(s, id) == s
  {
    if |s| > 0 {
      WithoutAbsent(s[1..], id);
      assert [s[0]] + s[1..] == s;
    }
  }

  /** In a cart with unique ids, filtering out a present id removes exactly
      that one item and keeps the rest in their order. */
  lemma WithoutAt<Meta>(s: seq<Item<Meta>>, id: int, i: nat)
    requires UniqueIds(s)
    requires i < |s| && s[i].id == id
    ensures Without(s, id) == s[..i] + s[i+1..]
  {
    assert s == s[..i] + ([s[i]] + s[i+1..]);
    WithoutConcat(s[..i], [s[i]] + s[i+1..], id);
    WithoutConcat([s[i]], s[i+1..], id);
    WithoutAbsent(s[..i], id);
    WithoutAbsent(s[i+1..], id);
    assert Without([s[i]], id) == [] by {
      assert [s[i]][1..] == [];
    }
  }

  /** The amount held in a cart with a first item y: y's amount for y's id,
      the rest's amount for every other id. */
  lemma AmountOfCons<Meta>(y: Item<Meta>, t: seq<Item<Meta>>, x: int)
    ensures AmountOf([y] + t, x) == if y.id == x then y.amount else AmountOf(t, x)
  {
    assert ([y] + t)[1..] == t;
  }

  /** Filtering one id keeps every other product present exactly when it
      was. */
  lemma WithoutKeepsPresence<Meta>(s: seq<Item<Meta>>, id: int, x: int)
    requires x != id
    ensures Find(Without(s, id), x).Some? == Find(s, x).Some?
  {
    var w := Without(s, id);
    if Find(s, x).Some? {
      var i := Find(s, x).value;
      assert s[i] in w;
      var k :| 0 <= k < |w| && w[k] == s[i];
    } else {
      forall k | 0 <= k < |w| ensures w[k].id != x {
        assert w[k] in s;
      }
    }
  }

  /** Filtering one id keeps the amount held of every other product. */
  lemma {:induction false} WithoutKeepsAmount<Meta>(s: seq<Item<Meta>>, id: int, x: int)
    requires x != id
    ensures AmountOf(Without(s, id), x) == AmountOf(s, x)
  {
    if |s| > 0 {
      WithoutKeepsAmount(s[1..], id, x);
      assert s == [s[0]] + s[1..];
      AmountOfCons(s[0], s[1..], x);
      if s[0].id != id {
        AmountOfCons(s[0], Without(s[1..], id), x);
      }
    }
  }

  /** Cutting one item out of a well-formed cart leaves a well-formed cart. */
  lemma CutKeepsWellFormed<Meta>(s: seq<Item<Meta>>, i: nat)
    requires WellFormed(s) && i < |s|
    ensures WellFormed(s[..i] + s[i+1..])
  {
    var r := s[..i] + s[i+1..];
    assert forall j :: 0 <= j < |r| ==> r[j] == s[if j < i then j else j + 1];
  }

  // ---------------------------------------------------------------------
  // addProduct (src/hooks/useCart.tsx:33-62)
  // ---------------------------------------------------------------------

  /** Amount held plus one above stock: rejected, nothing changes. */
  lemma AddRejectsBeyondStock<Meta>(cart: seq<Item<Meta>>, id: int, inv: Inventory<Meta>)
    requires StockOf(inv, id).Some? && AmountOf(cart, id) + 1 > StockOf(inv, id).value
    ensures AddStep(cart, id, inv) == Step(StockExceeded, cart)
  {
  }

  /** A failed stock call, or a failed product call for a new item, aborts
      the operation with its error and leaves the cart as it was. */
  lemma AddFailsWithInventory<Meta>(cart: seq<Item<Meta>>, id: int, inv: Inventory<Meta>)
    requires StockOf(inv, id).None? ||
             (Find(cart, id).None? && ProductOf(inv, id).None? && StockOf(inv, id).value >= 1)
    ensures AddStep(cart, id, inv) == Step(Failed, cart)
  {
  }

  /** An existing item within stock: its amount rises by exactly one; the
      length, the order and every other item stay the same. */
  lemma AddIncrementsExisting<Meta>(cart: seq<Item<Meta>>, id: int, inv: Inventory<Meta>, i: nat)
    requires i < |cart| && cart[i].id == id
    requires forall j :: 0 <= j < i ==> cart[j].id != id
    requires StockOf(inv, id).Some? && cart[i].amount + 1 <= StockOf(inv, id).value
    ensures AddStep(cart, id, inv).outcome == Committed
    ensures |AddStep(cart, id, inv).cart| == |cart|
    ensures AddStep(cart, id, inv).cart[i] == Item(id, cart[i].amount + 1, cart[i].meta)
    ensures forall j :: 0 <= j < |cart| && j != i ==> AddStep(cart, id, inv).cart[j] == cart[j]
  {
    FindFirst(cart, id, i);
  }

  /** A new product within stock: one item with the catalog's metadata and
      amount 1 goes at the end; all prior items stay, in order. */
  lemma AddAppendsNew<Meta>(cart: seq<Item<Meta>>, id: int, inv: Inventory<Meta>)
    requires forall j :: 0 <= j < |cart| ==> cart[j].id != id
    requires StockOf(inv, id).Some? && StockOf(inv, id).value >= 1
    requires ProductOf(inv, id).Some?
    ensures AddStep(cart, id, inv).outcome == Committed
    ensures |AddStep(cart, id, inv).cart| == |cart| + 1
    ensures AddStep(cart, id, inv).cart[..|cart|] == cart
    ensures AddStep(cart, id, inv).cart[|cart|] == Item(id, 1, ProductOf(inv, id).value)
  {
  }

  /** A committed add raises the amount held of the product by one and
      changes neither the presence nor the amount of any other product. */
  lemma AddMovesOneUnit<Meta>(cart: seq<Item<Meta>>, id: int, inv: Inventory<Meta>)
    requires AddStep(cart, id, inv).outcome == Committed
    ensures Find(AddStep(cart, id, inv).cart, id).Some?
    ensures AmountOf(AddStep(cart, id, inv).cart, id) == AmountOf(cart, id) + 1
    ensures forall x :: x != id ==> Find(AddStep(cart, id, inv).cart, x) == Find(cart, x)
    ensures forall x :: x != id ==> AmountOf(AddStep(cart, id, inv).cart, x) == AmountOf(cart, x)
  {
    var r := AddStep(cart, id, inv).cart;
    match Find(cart, id)
    case Some(i) =>
      forall x ensures Find(r, x) == Find(cart, x) {
        FindSetAmount(cart, i, cart[i].amount + 1, x);
      }
    case None =>
      var meta := ProductOf(inv, id).value;
      forall x ensures Find(r, x) == (if x == id then Some(|cart|) else Find(cart, x)) {
        FindAppend(cart, Item(id, 1, meta), x);
      }
  }

  /** addProduct keeps the cart invariant. */
  lemma AddPreservesWellFormed<Meta>(cart: seq<Item<Meta>>, id: int, inv: Inventory<Meta>)
    requires WellFormed(cart)
    ensures WellFormed(AddStep(cart, id, inv).cart)
  {
    var r := AddStep(cart, id, inv).cart;
    if AddStep(cart, id, inv).outcome == Committed && Find(cart, id).None? {
      assert r == cart + [r[|cart|]];
      assert forall j :: 0 <= j < |cart| ==> r[j] == cart[j];
    }
  }

  // ---------------------------------------------------------------------
  // removeProduct (src/hooks/useCart.tsx:64-76)
  // ---------------------------------------------------------------------

  /** No item with the id: the remove error, nothing changes. */
  lemma RemoveAbsentFails<Meta>(cart: seq<Item<Meta>>, id: int)
    requires forall j :: 0 <= j < |cart| ==> cart[j].id != id
    ensures RemoveStep(cart, id) == Step(Failed, cart)
  {
  }

  /** A present item: committed, and in a cart with unique ids the result is
      the old cart with exactly that item cut out, order preserved. */
  lemma RemoveCutsItem<Meta>(cart: seq<Item<Meta>>, id: int, i: nat)
    requires UniqueIds(cart)
    requires i < |cart| && cart[i].id == id
    ensures RemoveStep(cart, id) == Step(Committed, cart[..i] + cart[i+1..])
  {
    WithoutAt(cart, id, i);
  }

  /** A committed remove leaves no item with the id and changes neither the
      presence nor the amount of any other product. */
  lemma RemoveMovesOnlyItsProduct<Meta>(cart: seq<Item<Meta>>, id: int)
    requires RemoveStep(cart, id).outcome == Committed
    ensures forall j :: 0 <= j < |RemoveStep(cart, id).cart| ==> RemoveStep(cart, id).cart[j].id != id
    ensures forall x :: x != id ==> Find(RemoveStep(cart, id).cart, x).Some? == Find(cart, x).Some?
    ensures forall x :: x != id ==> AmountOf(RemoveStep(cart, id).cart, x) == AmountOf(cart, x)
  {
    forall x | x != id
      ensures Find(Without(cart, id), x).Some? == Find(cart, x).Some?
      ensures AmountOf(Without(cart, id), x) == AmountOf(cart, x)
    {
      WithoutKeepsPresence(cart, id, x);
      WithoutKeepsAmount(cart, id, x);
    }
  }

  /** removeProduct keeps the cart invariant. */
  lemma RemovePreservesWellFormed<Meta>(cart: seq<Item<Meta>>, id: int)
    requires WellFormed(cart)
    ensures WellFormed(RemoveStep(cart, id).cart)
  {
    match Find(cart, id)
    case None =>
    case Some(i) =>
      WithoutAt(cart, id, i);
      CutKeepsWellFormed(cart, i);
  }

  // ---------------------------------------------------------------------
  // updateProductAmount (src/hooks/useCart.tsx:78-106)
  // ---------------------------------------------------------------------

  /** A non-positive amount is a silent no-op, whatever the cart. */
  lemma UpdateNonPositiveIsNoOp<Meta>(cart: seq<Item<Meta>>, id: int, amount: int, inv: Inventory<Meta>)
    requires amount <= 0
    ensures UpdateStep(cart, id, amount, inv) == Step(NoOp, cart)
  {
  }

  /** An absent item: silent no-op once stock has answered, the update
      error when the stock call fails. */
  lemma UpdateAbsent<Meta>(cart: seq<Item<Meta>>, id: int, amount: int, inv: Inventory<Meta>)
    requires amount > 0
    requires forall j :: 0 <= j < |cart| ==> cart[j].id != id
    ensures StockOf(inv, id).Some? ==> UpdateStep(cart, id, amount, inv) == Step(NoOp, cart)
    ensures StockOf(inv, id).None? ==> UpdateStep(cart, id, amount, inv) == Step(Failed, cart)
  {
  }

  /** An existing item and an amount above stock: rejected, nothing changes. */
  lemma UpdateRejectsBeyondStock<Meta>(cart: seq<Item<Meta>>, id: int, amount: int, inv: Inventory<Meta>)
    requires Find(cart, id).Some?
    requires StockOf(inv, id).Some? && amount > StockOf(inv, id).value && amount > 0
    ensures UpdateStep(cart, id, amount, inv) == Step(StockExceeded, cart)
  {
  }

  /** An existing item and a positive amount within stock: only that item's
      amount becomes the requested one; length and order stay. */
  lemma UpdateSetsAmount<Meta>(cart: seq<Item<Meta>>, id: int, amount: int, inv: Inventory<Meta>, i: nat)
    requires i < |cart| && cart[i].id == id
    requires forall j :: 0 <= j < i ==> cart[j].id != id
    requires StockOf(inv, id).Some? && 0 < amount <= StockOf(inv, id).value
    ensures UpdateStep(cart, id, amount, inv).outcome == Committed
    ensures |UpdateStep(cart, id, amount, inv).cart| == |cart|
    ensures UpdateStep(cart, id, amount, inv).cart[i] == Item(id, amount, cart[i].meta)
    ensures forall j :: 0 <= j < |cart| && j != i ==> UpdateStep(cart, id, amount, inv).cart[j] == cart[j]
  {
    FindFirst(cart, id, i);
  }

  /** A committed update makes the amount held of the product the requested
      one and changes no lookup and no other product's amount. */
  lemma UpdateMovesOnlyItsProduct<Meta>(cart: seq<Item<Meta>>, id: int, amount: int, inv: Inventory<Meta>)
    requires UpdateStep(cart, id, amount, inv).outcome == Committed
    ensures AmountOf(UpdateStep(cart, id, amount, inv).cart, id) == amount
    ensures forall x :: Find(UpdateStep(cart, id, amount, inv).cart, x) == Find(cart, x)
    ensures forall x :: x != id ==> AmountOf(UpdateStep(cart, id, amount, inv).cart, x) == AmountOf(cart, x)
  {
    var i := Find(cart, id).value;
    forall x ensures Find(UpdateStep(cart, id, amount, inv).cart, x) == Find(cart, x) {
      FindSetAmount(cart, i, amount, x);
    }
  }

  /** updateProductAmount keeps the cart invariant: the amount <= 0 guard is
      what keeps every amount at least 1. */
  lemma UpdatePreservesWellFormed<Meta>(cart: seq<Item<Meta>>, id: int, amount: int, inv: Inventory<Meta>)
    requires WellFormed(cart)
    ensures WellFormed(UpdateStep(cart, id, amount, inv).cart)
  {
  }

  // ---------------------------------------------------------------------
  // All operations
  // ---------------------------------------------------------------------

  /** Every outcome but Committed leaves the cart exactly as it was. */
  lemma RejectionKeepsCart<Meta>(cart: seq<Item<Meta>>, id: int, amount: int, inv: Inventory<Meta>)
    ensures AddStep(cart, id, inv).outcome != Committed ==> AddStep(cart, id, inv).cart == cart
    ensures RemoveStep(cart, id).outcome != Committed ==> RemoveStep(cart, id).cart == cart
    ensures UpdateStep(cart, id, amount, inv).outcome != Committed ==> UpdateStep(cart, id, amount, inv).cart == cart
    ensures AddStep(cart, id, inv).outcome != NoOp && RemoveStep(cart, id).outcome != NoOp
  {
  }

  /** One call of the component, with what the remote services answer to it. */
  datatype Request<Meta> =
    | AddRequest(id: int, inv: Inventory<Meta>)
    | RemoveRequest(id: int)
    | UpdateRequest(id: int, amount: int, inv: Inventory<Meta>)

  function Apply<Meta>(cart: seq<Item<Meta>>, req: Request<Meta>): Step<Meta>
  {
    match req
    case AddRequest(id, inv) => AddStep(cart, id, inv)
    case RemoveRequest(id) => RemoveStep(cart, id)
    case UpdateRequest(id, amount, inv) => UpdateStep(cart, id, amount, inv)
  }

  /** The cart after serving the requests one after the other. */
  function Run<Meta>(cart: seq<Item<Meta>>, reqs: seq<Request<Meta>>): seq<Item<Meta>>
    decreases |reqs|
  {
    if |reqs| == 0 then cart else Run(Apply(cart, reqs[0]).cart, reqs[1..])
  }

  /** Every cart reachable from a well-formed one keeps the invariant. */
  lemma {:induction false} RunPreservesWellFormed<Meta>(cart: seq<Item<Meta>>, reqs: seq<Request<Meta>>)
    requires WellFormed(cart)
    ensures WellFormed(Run(cart, reqs))
    decreases |reqs|
  {
    if |reqs| > 0 {
      match reqs[0] {
        case AddRequest(id, inv) => AddPreservesWellFormed(cart, id, inv);
        case RemoveRequest(id) => RemovePreservesWellFormed(cart, id);
        case UpdateRequest(id, amount, inv) => UpdatePreservesWellFormed(cart, id, amount, inv);
      }
      RunPreservesWellFormed(Apply(cart, reqs[0]).cart, reqs[1..]);
    }
  }

  /** Starting without a stored snapshot, every reachable cart keeps the
      invariant. */
  lemma FreshStartStaysWellFormed<Meta>(reqs: seq<Request<Meta>>)
    ensures Restore<Meta>(None) == []
    ensures WellFormed(Run(Restore<Meta>(None), reqs))
  {
    RunPreservesWellFormed(Restore<Meta>(None), reqs);
  }

  /** Reloading the snapshot that write-through keeps gives back the cart. */
  lemma RestoreReturnsMirroredCart<Meta>(stored: Option<seq<Item<Meta>>>, cart: seq<Item<Meta>>)
    requires Mirrors(stored, cart)
    ensures Restore(stored) == cart
  {
  }
}
