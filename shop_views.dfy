/**
  The storefront's views that change or read the cart and the user tables:
  adding a coffee to the cart, raising and lowering a row's quantity, the
  cart page's total, and registration. Each view is a method on the
  database; its response is what the browser is sent (a redirect, a plain
  message, or a rendered page). Requests come in as the requesting user's
  id, `None` when nobody is logged in, and the view's URL arguments.
 */
module ShopViews {
  import opened Wrappers
  import opened ShopModels
  import opened CartSums

  /** Why `user_register` shows its form again with an error message. */
  datatype RegisterError = PasswordsDiffer | UsernameTaken | EmailTaken

  datatype Response =
    | RedirectLogin
    | RedirectHome
    | RedirectCart
    | NotFound
    | OutOfStock
    | NotEnoughStock
    | CartPage(total: int)
    | RegisterPage(error: Option<RegisterError>)
    /** An exception escaped the view, and the server answers with its error page. */
    | ServerError

  /** The quantity the row has after `get_or_create`: its own, or the default for a new row. */
  function QuantityAfterGetOrCreate(carts: map<nat, CartItem>, user: nat, coffee: nat): int {
    if FindRow(carts, user, coffee).None? then DefaultCartQuantity else Holding(carts, user, coffee)
  }

  /** The response of `add_to_cart`, decided by the checks in their order. */
  function AddToCartResponse(coffees: map<nat, Coffee>, carts: map<nat, CartItem>, requester: Option<nat>, coffee: nat): Response {
    if requester.None? then RedirectLogin
    else if coffee !in coffees then NotFound
    else if coffees[coffee].quantity <= 0 then OutOfStock
    else if QuantityAfterGetOrCreate(carts, requester.value, coffee) + 1 > coffees[coffee].quantity then NotEnoughStock
    else RedirectHome
  }

  /**
    For a logged-in user and a coffee in stock, `add_to_cart` succeeds exactly
    when the stock covers the row's quantity plus one. A user without a row
    needs two units in stock, because the new row already counts its default
    quantity: the last unit of a coffee only goes to a user who holds some.
   */
  lemma AddSucceedsWhen(coffees: map<nat, Coffee>, carts: map<nat, CartItem>, user: nat, coffee: nat)
    requires coffee in coffees && coffees[coffee].quantity > 0
    ensures FindRow(carts, user, coffee).None? ==>
      (AddToCartResponse(coffees, carts, Some(user), coffee) == RedirectHome <==> coffees[coffee].quantity >= 2)
    ensures FindRow(carts, user, coffee).Some? ==>
      (AddToCartResponse(coffees, carts, Some(user), coffee) == RedirectHome
       <==> Holding(carts, user, coffee) + 1 <= coffees[coffee].quantity)
  {
  }

  /** The coffee table with one coffee's stock moved by `delta`. */
  function Restocked(coffees: map<nat, Coffee>, coffee: nat, delta: int): (r: map<nat, Coffee>)
    requires coffee in coffees
    ensures r.Keys == coffees.Keys && r[coffee].quantity == coffees[coffee].quantity + delta
    ensures SamePrices(coffees, r) && r[coffee].name == coffees[coffee].name
    ensures forall c :: c in coffees && c != coffee ==> r[c] == coffees[c]
  {
    coffees[coffee := coffees[coffee].(quantity := coffees[coffee].quantity + delta)]
  }

  /** The row `add_to_cart` puts the unit in: the user's row for the coffee, or the next new row. */
  function AddRowId(carts: map<nat, CartItem>, nextCart: nat, user: nat, coffee: nat): nat {
    match FindRow(carts, user, coffee)
    case Some(id) => id
    case None => nextCart
  }

  /** The cart table after `get_or_create`: unchanged, or with the new row of default quantity. */
  function AfterGetOrCreate(carts: map<nat, CartItem>, nextCart: nat, user: nat, coffee: nat): map<nat, CartItem> {
    if FindRow(carts, user, coffee).None? then carts[nextCart := CartItem(user, coffee, DefaultCartQuantity)] else carts
  }

  /**
    The quantity `add_to_cart` checks is that of the row `get_or_create`
    hands back, and that row is then the user's only row for the coffee.
   */
  lemma GetOrCreateRowQuantity(carts: map<nat, CartItem>, nextCart: nat, user: nat, coffee: nat)
    requires OneRowPerCoffee(carts) && nextCart !in carts
    ensures var after := AfterGetOrCreate(carts, nextCart, user, coffee);
      var id := AddRowId(carts, nextCart, user, coffee);
      && id in after && after[id].user == user && after[id].coffee == coffee
      && after[id].quantity == QuantityAfterGetOrCreate(carts, user, coffee)
      && RowsFor(after, user, coffee) == {id}
  {
    var after := AfterGetOrCreate(carts, nextCart, user, coffee);
    var id := AddRowId(carts, nextCart, user, coffee);
    if FindRow(carts, user, coffee).Some? {
      FoundRowIsOnlyRow(carts, id);
      assert RowsFor(after, user, coffee) == {id};
    } else {
      forall x | x in RowsFor(after, user, coffee)
        ensures x == id
      {
        assert x in carts ==> x in RowsFor(carts, user, coffee);
      }
      assert id in RowsFor(after, user, coffee);
    }
  }

  /**
    The state after a successful `add_to_cart`: the user's row holds one
    more unit, the stock one less, no unit is made or lost, and only the
    user's total moves, by the coffee's price.
   */
  ghost predicate AddSucceeded(coffees0: map<nat, Coffee>, carts0: map<nat, CartItem>, nextCart0: nat,
                               coffees: map<nat, Coffee>, carts: map<nat, CartItem>, user: nat, coffee: nat) {
    && coffee in coffees0
    && coffees == Restocked(coffees0, coffee, -1)
    && carts == carts0[AddRowId(carts0, nextCart0, user, coffee) := CartItem(user, coffee, Holding(carts0, user, coffee) + 1)]
    && Holding(carts, user, coffee) == Holding(carts0, user, coffee) + 1
    && UnitsConserved(coffees0, carts0, coffees, carts)
    && CartTotal(carts, coffees, user) == CartTotal(carts0, coffees0, user) + coffees0[coffee].price
    && OtherTotalsKept(user, coffees0, carts0, coffees, carts)
  }

  /** Proof step: one unit of a coffee is worth its price. */
  lemma UnitTimes(d: int, price: int)
    requires d == 1
    ensures d * price == price
  {
  }

  /** Adding one unit to a row and taking it from stock has the effects `AddSucceeded` names. */
  lemma AddOneUnit(coffees0: map<nat, Coffee>, carts0: map<nat, CartItem>, nextCart0: nat,
                   coffees: map<nat, Coffee>, carts: map<nat, CartItem>, user: nat, coffee: nat)
    requires OneRowPerCoffee(carts0) && coffee in coffees0
    requires forall id :: id in carts0 ==> id < nextCart0
    requires coffees == Restocked(coffees0, coffee, -1)
    requires carts == carts0[AddRowId(carts0, nextCart0, user, coffee) := CartItem(user, coffee, Holding(carts0, user, coffee) + 1)]
    ensures AddSucceeded(coffees0, carts0, nextCart0, coffees, carts, user, coffee)
  {
    var id := AddRowId(carts0, nextCart0, user, coffee);
    if FindRow(carts0, user, coffee).Some? {
      FoundRowIsOnlyRow(carts0, id);
    }
    assert RowsFor(carts0, user, coffee) <= {id};
    SetRowKeepsOneRowPerCoffee(carts0, id, CartItem(user, coffee, Holding(carts0, user, coffee) + 1));
    FoundRowIsOnlyRow(carts, id);
    var held := Holding(carts0, user, coffee);
    assert Held(carts0, id) == held;
    assert Held(carts, id) == held + 1;
    UnitsConservedAt(coffees0, carts0, coffees, carts, id, coffee);
    OtherTotalsStay(carts0, coffees0, carts, coffees, id, user);
    OwnerTotalMoves(carts0, coffees0, carts, coffees, id, user, coffee);
    UnitTimes(Held(carts, id) - Held(carts0, id), coffees0[coffee].price);
    assert Holding(carts, user, coffee) == held + 1;
  }

  /** A successful `add_to_cart` leaves no stock negative and no row empty. */
  lemma AddKeepsStocked(coffees0: map<nat, Coffee>, carts0: map<nat, CartItem>, nextCart0: nat, user: nat, coffee: nat)
    requires StockedTables(coffees0, carts0) && coffee in coffees0
    requires Holding(carts0, user, coffee) + 1 <= coffees0[coffee].quantity
    ensures StockedTables(Restocked(coffees0, coffee, -1),
                          carts0[AddRowId(carts0, nextCart0, user, coffee) := CartItem(user, coffee, Holding(carts0, user, coffee) + 1)])
  {
    if FindRow(carts0, user, coffee).Some? {
      assert Holding(carts0, user, coffee) >= 1;
    }
  }

  /**
    A refused `add_to_cart` that had to create the row leaves that row, with
    its default quantity, in the cart, while the stock stays as it was: the
    carts hold one more unit of the coffee than before.
   */
  lemma RefusedAddKeepsNewRow(coffees: map<nat, Coffee>, carts0: map<nat, CartItem>, nextCart0: nat, user: nat, coffee: nat)
    requires FindRow(carts0, user, coffee).None? && nextCart0 !in carts0 && coffee in coffees
    ensures UnitsInCarts(carts0[nextCart0 := CartItem(user, coffee, DefaultCartQuantity)], coffee)
         == UnitsInCarts(carts0, coffee) + DefaultCartQuantity
  {
    CoffeeUnitsMove(carts0, carts0[nextCart0 := CartItem(user, coffee, DefaultCartQuantity)], nextCart0, coffee);
  }

  /** Proof step: saving a row just created replaces it. */
  lemma SetRowTwice(carts: map<nat, CartItem>, id: nat, first: CartItem, row: CartItem)
    ensures carts[id := first][id := first.(quantity := row.quantity)] == carts[id := first.(quantity := row.quantity)]
  {
  }

  /**
    Proof step: the two saves of a successful `add_to_cart`, applied to the
    tables `get_or_create` left, have the effects `AddSucceeded` names.
   */
  lemma SavesAddOne(coffees0: map<nat, Coffee>, carts0: map<nat, CartItem>, nextCart0: nat,
                    carts1: map<nat, CartItem>, id: nat, created: bool, user: nat, coffee: nat,
                    coffees: map<nat, Coffee>, carts: map<nat, CartItem>)
    requires OneRowPerCoffee(carts0) && (forall x :: x in carts0 ==> x < nextCart0) && coffee in coffees0
    requires id == AddRowId(carts0, nextCart0, user, coffee) && id in carts1
    requires created <==> FindRow(carts0, user, coffee).None?
    requires created ==> carts1 == carts0[id := CartItem(user, coffee, DefaultCartQuantity)]
    requires !created ==> carts1 == carts0 && Holding(carts0, user, coffee) == carts0[id].quantity
    requires carts == carts1[id := carts1[id].(quantity := if !created then carts1[id].quantity + 1 else 1)]
    requires coffees == coffees0[coffee := coffees0[coffee].(quantity := coffees0[coffee].quantity - 1)]
    ensures AddSucceeded(coffees0, carts0, nextCart0, coffees, carts, user, coffee)
  {
    var row := CartItem(user, coffee, Holding(carts0, user, coffee) + 1);
    if created {
      SetRowTwice(carts0, id, CartItem(user, coffee, DefaultCartQuantity), row);
    } else {
      assert carts0[id] == CartItem(user, coffee, Holding(carts0, user, coffee));
    }
    assert carts == carts0[id := row];
    AddOneUnit(coffees0, carts0, nextCart0, coffees, carts, user, coffee);
  }

  /**
    The saves of a successful `add_to_cart`: the row found or created by
    `get_or_create` (from the tables `carts0`, `coffees0`) gets one unit more,
    and the stock one less.
   */
  method SaveOneMore(db: Database, id: nat, created: bool, user: nat, coffee: nat,
                     ghost carts0: map<nat, CartItem>, ghost coffees0: map<nat, Coffee>, ghost nextCart0: nat,
                     ghost wasStocked: bool)
    requires db.Valid() && coffee in db.coffees && id in db.carts
    requires OneRowPerCoffee(carts0) && (forall x :: x in carts0 ==> x < nextCart0)
    requires id == AddRowId(carts0, nextCart0, user, coffee) && coffees0 == db.coffees
    requires created <==> FindRow(carts0, user, coffee).None?
    requires created ==> db.carts == carts0[id := CartItem(user, coffee, DefaultCartQuantity)]
    requires !created ==> db.carts == carts0 && Holding(carts0, user, coffee) == carts0[id].quantity
    requires db.carts[id].quantity + 1 <= db.coffees[coffee].quantity
    requires wasStocked ==> StockedTables(coffees0, carts0)
    modifies db
    ensures db.Valid()
    ensures wasStocked ==> db.Stocked()
    ensures db.users == old(db.users) && db.profiles == old(db.profiles)
    ensures db.nextCart == old(db.nextCart) && db.nextUser == old(db.nextUser) && db.nextProfile == old(db.nextProfile)
    ensures AddSucceeded(coffees0, carts0, nextCart0, db.coffees, db.carts, user, coffee)
  {
    ghost var carts1 := db.carts;
    var stock := db.coffees[coffee].quantity;
    var quantity := if !created then db.carts[id].quantity + 1 else 1;
    db.SaveCartQuantity(id, quantity);
    db.SaveStock(coffee, stock - 1);
    SavesAddOne(coffees0, carts0, nextCart0, carts1, id, created, user, coffee, db.coffees, db.carts);
    if wasStocked {
      AddKeepsStocked(coffees0, carts0, nextCart0, user, coffee);
    }
  }

  /** The part of `add_to_cart` after the coffee is found in stock: `get_or_create`, the check, the saves. */
  method PutOneInCart(db: Database, user: nat, coffee: nat) returns (r: Response)
    requires db.Valid() && user in db.users && coffee in db.coffees
    modifies db
    ensures db.Valid()
    ensures old(db.Stocked()) ==> db.Stocked()
    ensures r == (if QuantityAfterGetOrCreate(old(db.carts), user, coffee) + 1 > old(db.coffees)[coffee].quantity
                  then NotEnoughStock else RedirectHome)
    ensures db.users == old(db.users) && db.profiles == old(db.profiles)
    ensures db.nextCart == old(db.nextCart) + (if FindRow(old(db.carts), user, coffee).None? then 1 else 0)
    ensures db.nextUser == old(db.nextUser) && db.nextProfile == old(db.nextProfile)
    ensures r == NotEnoughStock ==> db.coffees == old(db.coffees)
    ensures r == NotEnoughStock && FindRow(old(db.carts), user, coffee).Some? ==> db.carts == old(db.carts)
    ensures r == NotEnoughStock && FindRow(old(db.carts), user, coffee).None? ==>
      db.carts == old(db.carts)[old(db.nextCart) := CartItem(user, coffee, DefaultCartQuantity)]
    ensures r == RedirectHome ==> AddSucceeded(old(db.coffees), old(db.carts), old(db.nextCart), db.coffees, db.carts, user, coffee)
  {
    ghost var carts0, coffees0, nextCart0 := db.carts, db.coffees, db.nextCart;
    var id, created := db.GetOrCreateCart(user, coffee);
    if !created {
      FoundRowIsOnlyRow(carts0, id);
    }
    assert id == AddRowId(carts0, nextCart0, user, coffee);
    var stock := db.coffees[coffee].quantity;
    if db.carts[id].quantity + 1 > stock {
      return NotEnoughStock;
    }
    SaveOneMore(db, id, created, user, coffee, carts0, coffees0, nextCart0, old(db.Stocked()));
    r := RedirectHome;
  }

  method AddToCart(db: Database, requester: Option<nat>, coffee: nat) returns (r: Response)
    requires db.Valid()
    requires requester.Some? ==> requester.value in db.users
    modifies db
    ensures db.Valid()
    ensures old(db.Stocked()) ==> db.Stocked()
    ensures r == AddToCartResponse(old(db.coffees), old(db.carts), requester, coffee)
    ensures db.users == old(db.users) && db.profiles == old(db.profiles)
    ensures r in {RedirectLogin, NotFound, OutOfStock} ==> db.coffees == old(db.coffees) && db.carts == old(db.carts)
    ensures r in {RedirectLogin, NotFound, OutOfStock} ==> db.nextCart == old(db.nextCart)
    ensures r in {NotEnoughStock, RedirectHome} ==>
      requester.Some? && db.nextCart == old(db.nextCart) + (if FindRow(old(db.carts), requester.value, coffee).None? then 1 else 0)
    ensures db.nextUser == old(db.nextUser) && db.nextProfile == old(db.nextProfile)
    ensures r == NotEnoughStock ==> requester.Some? && db.coffees == old(db.coffees)
    ensures r == NotEnoughStock && FindRow(old(db.carts), requester.value, coffee).Some? ==> db.carts == old(db.carts)
    ensures r == NotEnoughStock && FindRow(old(db.carts), requester.value, coffee).None? ==>
      db.carts == old(db.carts)[old(db.nextCart) := CartItem(requester.value, coffee, DefaultCartQuantity)]
    ensures r == RedirectHome ==>
      requester.Some? && AddSucceeded(old(db.coffees), old(db.carts), old(db.nextCart), db.coffees, db.carts, requester.value, coffee)
  {
    if requester.None? {
      return RedirectLogin;
    }
    if coffee !in db.coffees {
      return NotFound;
    }
    if db.coffees[coffee].quantity <= 0 {
      return OutOfStock;
    }
    r := PutOneInCart(db, requester.value, coffee);
  }

  /** `get_object_or_404(Cart, id=..., user=...)` finds the row: it exists and belongs to the requester. */
  predicate Owns(carts: map<nat, CartItem>, user: nat, id: nat) {
    id in carts && carts[id].user == user
  }

  /** The response of `increment_quantity`. */
  function IncrementResponse(coffees: map<nat, Coffee>, carts: map<nat, CartItem>, user: nat, id: nat): Response
    requires CoffeesResolve(coffees, carts)
  {
    if !Owns(carts, user, id) then NotFound
    else if carts[id].quantity + 1 > coffees[carts[id].coffee].quantity then NotEnoughStock
    else RedirectCart
  }

  /** The response of `decrement_quantity`: it always succeeds on the requester's own row. */
  function DecrementResponse(carts: map<nat, CartItem>, user: nat, id: nat): Response {
    if Owns(carts, user, id) then RedirectCart else NotFound
  }

  /**
    Row `id` moved `delta` units between its cart and its coffee's stock: no
    unit is made or lost, the owner's total moves by `delta` times the price,
    and no other user's total moves.
   */
  ghost predicate Moved(coffees0: map<nat, Coffee>, carts0: map<nat, CartItem>,
                        coffees: map<nat, Coffee>, carts: map<nat, CartItem>, id: nat, delta: int) {
    && id in carts0 && carts0[id].coffee in coffees0
    && coffees == Restocked(coffees0, carts0[id].coffee, -delta)
    && carts == carts0[id := carts0[id].(quantity := carts0[id].quantity + delta)]
    && UnitsConserved(coffees0, carts0, coffees, carts)
    && CartTotal(carts, coffees, carts0[id].user)
       == CartTotal(carts0, coffees0, carts0[id].user) + delta * coffees0[carts0[id].coffee].price
    && OtherTotalsKept(carts0[id].user, coffees0, carts0, coffees, carts)
  }

  /**
    Row `id` was deleted and all it held went back to stock: no unit is made
    or lost, the owner's total drops by the row's value, and no other user's
    total moves.
   */
  ghost predicate Returned(coffees0: map<nat, Coffee>, carts0: map<nat, CartItem>,
                           coffees: map<nat, Coffee>, carts: map<nat, CartItem>, id: nat) {
    && id in carts0 && carts0[id].coffee in coffees0
    && coffees == Restocked(coffees0, carts0[id].coffee, carts0[id].quantity)
    && carts == carts0 - {id}
    && UnitsConserved(coffees0, carts0, coffees, carts)
    && CartTotal(carts, coffees, carts0[id].user)
       == CartTotal(carts0, coffees0, carts0[id].user) - carts0[id].quantity * coffees0[carts0[id].coffee].price
    && OtherTotalsKept(carts0[id].user, coffees0, carts0, coffees, carts)
  }

  /** Proof step: equal quantity changes are worth the same. */
  lemma SameFactor(d: int, e: int, price: int)
    requires d == e
    ensures d * price == e * price
  {
  }

  /** Proof step: giving back `q` units is worth minus their value. */
  lemma NegatedFactor(d: int, q: int, price: int)
    requires d == -q
    ensures d * price == -(q * price)
  {
  }

  /** Moving units between a row and its coffee's stock has the effects `Moved` names. */
  lemma MoveUnits(coffees0: map<nat, Coffee>, carts0: map<nat, CartItem>,
                  coffees: map<nat, Coffee>, carts: map<nat, CartItem>, id: nat, delta: int)
    requires id in carts0 && carts0[id].coffee in coffees0
    requires coffees == Restocked(coffees0, carts0[id].coffee, -delta)
    requires carts == carts0[id := carts0[id].(quantity := carts0[id].quantity + delta)]
    ensures Moved(coffees0, carts0, coffees, carts, id, delta)
  {
    var row := carts0[id];
    SetRowChangesOnlyIt(carts0, id, row.(quantity := row.quantity + delta));
    assert Held(carts, id) - Held(carts0, id) == delta;
    assert UnitsConserved(coffees0, carts0, coffees, carts) by {
      UnitsConservedAt(coffees0, carts0, coffees, carts, id, row.coffee);
    }
    assert OtherTotalsKept(row.user, coffees0, carts0, coffees, carts) by {
      OtherTotalsStay(carts0, coffees0, carts, coffees, id, row.user);
    }
    assert CartTotal(carts, coffees, row.user) == CartTotal(carts0, coffees0, row.user) + delta * coffees0[row.coffee].price by {
      OwnerTotalMoves(carts0, coffees0, carts, coffees, id, row.user, row.coffee);
      SameFactor(Held(carts, id) - Held(carts0, id), delta, coffees0[row.coffee].price);
    }
  }

  /** Deleting a row and returning what it held to stock has the effects `Returned` names. */
  lemma ReturnRow(coffees0: map<nat, Coffee>, carts0: map<nat, CartItem>,
                  coffees: map<nat, Coffee>, carts: map<nat, CartItem>, id: nat)
    requires id in carts0 && carts0[id].coffee in coffees0
    requires coffees == Restocked(coffees0, carts0[id].coffee, carts0[id].quantity)
    requires carts == carts0 - {id}
    ensures Returned(coffees0, carts0, coffees, carts, id)
  {
    var row := carts0[id];
    var price := coffees0[row.coffee].price;
    DeleteRowChangesOnlyIt(carts0, id);
    assert Held(carts, id) - Held(carts0, id) == -row.quantity;
    assert UnitsConserved(coffees0, carts0, coffees, carts) by {
      UnitsConservedAt(coffees0, carts0, coffees, carts, id, row.coffee);
    }
    assert OtherTotalsKept(row.user, coffees0, carts0, coffees, carts) by {
      OtherTotalsStay(carts0, coffees0, carts, coffees, id, row.user);
    }
    assert CartTotal(carts, coffees, row.user) == CartTotal(carts0, coffees0, row.user) - row.quantity * price by {
      OwnerTotalMoves(carts0, coffees0, carts, coffees, id, row.user, row.coffee);
      NegatedFactor(Held(carts, id) - Held(carts0, id), row.quantity, price);
    }
  }

  /** Taking one unit from stock into a row that fits it keeps stocks and rows non-negative and non-empty. */
  lemma IncrementKeepsStocked(coffees0: map<nat, Coffee>, carts0: map<nat, CartItem>, id: nat)
    requires StockedTables(coffees0, carts0) && id in carts0 && carts0[id].coffee in coffees0
    requires carts0[id].quantity + 1 <= coffees0[carts0[id].coffee].quantity
    ensures StockedTables(Restocked(coffees0, carts0[id].coffee, -1),
                          carts0[id := carts0[id].(quantity := carts0[id].quantity + 1)])
  {
  }

  /** Either way `decrement_quantity` goes, stocks stay non-negative and rows non-empty. */
  lemma DecrementKeepsStocked(coffees0: map<nat, Coffee>, carts0: map<nat, CartItem>, id: nat)
    requires StockedTables(coffees0, carts0) && id in carts0 && carts0[id].coffee in coffees0
    ensures carts0[id].quantity > 1 ==>
      StockedTables(Restocked(coffees0, carts0[id].coffee, 1), carts0[id := carts0[id].(quantity := carts0[id].quantity - 1)])
    ensures StockedTables(Restocked(coffees0, carts0[id].coffee, carts0[id].quantity), carts0 - {id})
  {
  }

  method IncrementQuantity(db: Database, user: nat, id: nat) returns (r: Response)
    requires db.Valid()
    modifies db
    ensures db.Valid()
    ensures old(db.Stocked()) ==> db.Stocked()
    ensures r == IncrementResponse(old(db.coffees), old(db.carts), user, id)
    ensures db.users == old(db.users) && db.profiles == old(db.profiles)
    ensures db.nextCart == old(db.nextCart) && db.nextUser == old(db.nextUser) && db.nextProfile == old(db.nextProfile)
    ensures r != RedirectCart ==> db.coffees == old(db.coffees) && db.carts == old(db.carts)
    ensures r == RedirectCart ==> Moved(old(db.coffees), old(db.carts), db.coffees, db.carts, id, 1)
  {
    if id !in db.carts || db.carts[id].user != user {
      return NotFound;
    }
    ghost var carts0, coffees0 := db.carts, db.coffees;
    var row := db.carts[id];
    var stock := db.coffees[row.coffee].quantity;
    if row.quantity + 1 > stock {
      return NotEnoughStock;
    }
    db.SaveCartQuantity(id, row.quantity + 1);
    db.SaveStock(row.coffee, stock - 1);
    MoveUnits(coffees0, carts0, db.coffees, db.carts, id, 1);
    if old(db.Stocked()) {
      IncrementKeepsStocked(coffees0, carts0, id);
    }
    r := RedirectCart;
  }

  method DecrementQuantity(db: Database, user: nat, id: nat) returns (r: Response)
    requires db.Valid()
    modifies db
    ensures db.Valid()
    ensures old(db.Stocked()) ==> db.Stocked()
    ensures r == DecrementResponse(old(db.carts), user, id)
    ensures db.users == old(db.users) && db.profiles == old(db.profiles)
    ensures db.nextCart == old(db.nextCart) && db.nextUser == old(db.nextUser) && db.nextProfile == old(db.nextProfile)
    ensures r == NotFound ==> db.coffees == old(db.coffees) && db.carts == old(db.carts)
    ensures r == RedirectCart && old(db.carts)[id].quantity > 1 ==> Moved(old(db.coffees), old(db.carts), db.coffees, db.carts, id, -1)
    ensures r == RedirectCart && old(db.carts)[id].quantity <= 1 ==> Returned(old(db.coffees), old(db.carts), db.coffees, db.carts, id)
  {
    if id !in db.carts || db.carts[id].user != user {
      return NotFound;
    }
    if db.carts[id].quantity > 1 {
      TakeOneBack(db, id);
    } else {
      ReturnAll(db, id);
    }
    r := RedirectCart;
  }

  /** The `quantity > 1` branch of `decrement_quantity`: one unit goes back from row `id` to stock. */
  method TakeOneBack(db: Database, id: nat)
    requires db.Valid() && id in db.carts && db.carts[id].quantity > 1
    modifies db
    ensures db.Valid()
    ensures old(db.Stocked()) ==> db.Stocked()
    ensures db.users == old(db.users) && db.profiles == old(db.profiles)
    ensures db.nextCart == old(db.nextCart) && db.nextUser == old(db.nextUser) && db.nextProfile == old(db.nextProfile)
    ensures Moved(old(db.coffees), old(db.carts), db.coffees, db.carts, id, -1)
  {
    ghost var carts0, coffees0 := db.carts, db.coffees;
    var row := db.carts[id];
    var stock := db.coffees[row.coffee].quantity;
    db.SaveCartQuantity(id, row.quantity - 1);
    db.SaveStock(row.coffee, stock + 1);
    MoveUnits(coffees0, carts0, db.coffees, db.carts, id, -1);
    if old(db.Stocked()) {
      DecrementKeepsStocked(coffees0, carts0, id);
    }
  }

  /** The other branch: row `id` is deleted and everything it held goes back to stock. */
  method ReturnAll(db: Database, id: nat)
    requires db.Valid() && id in db.carts
    modifies db
    ensures db.Valid()
    ensures old(db.Stocked()) ==> db.Stocked()
    ensures db.users == old(db.users) && db.profiles == old(db.profiles)
    ensures db.nextCart == old(db.nextCart) && db.nextUser == old(db.nextUser) && db.nextProfile == old(db.nextProfile)
    ensures Returned(old(db.coffees), old(db.carts), db.coffees, db.carts, id)
  {
    ghost var carts0, coffees0 := db.carts, db.coffees;
    var row := db.carts[id];
    var stock := db.coffees[row.coffee].quantity;
    if old(db.Stocked()) {
      DecrementKeepsStocked(coffees0, carts0, id);
    }
    db.SaveStock(row.coffee, stock + row.quantity);
    db.DeleteCart(id);
    ReturnRow(coffees0, carts0, db.coffees, db.carts, id);
  }

  /**
    `view_cart`: the total of the requester's rows, summed one row at a time
    in whatever order the rows come.
   */
  method ViewCart(db: Database, requester: Option<nat>) returns (r: Response)
    requires db.Valid()
    ensures requester.None? ==> r == RedirectLogin
    ensures requester.Some? ==> r == CartPage(CartTotal(db.carts, db.coffees, requester.value))
  {
    if requester.None? {
      return RedirectLogin;
    }
    var rows := UserRows(db.carts, requester.value);
    var total := 0;
    while rows != {}
      invariant rows <= UserRows(db.carts, requester.value)
      invariant total + SumRows(rows, db.carts, LineValue(db.coffees)) == CartTotal(db.carts, db.coffees, requester.value)
      decreases rows
    {
      var id :| id in rows;
      var item := db.carts[id];
      SumRowsTakeAny(rows, db.carts, LineValue(db.coffees), id);
      total := total + db.coffees[item.coffee].price * item.quantity;
      rows := rows - {id};
    }
    r := CartPage(total);
  }

  /** The fields `user_register` reads from a POST. */
  datatype RegistrationForm = RegistrationForm(username: string, email: string, password: string,
                                               confirmPassword: string, address: string)

  predicate EmailInUse(users: map<nat, User>, email: string) {
    exists id :: id in users && users[id].email == email
  }

  /** The first check the form fails, if any: passwords, then username, then email. */
  function Rejection(users: map<nat, User>, form: RegistrationForm): (e: Option<RegisterError>)
    ensures e.None? <==> form.password == form.confirmPassword
                         && !UsernameInUse(users, form.username) && !EmailInUse(users, form.email)
    ensures e == Some(PasswordsDiffer) <==> form.password != form.confirmPassword
    ensures e == Some(UsernameTaken) <==> form.password == form.confirmPassword && UsernameInUse(users, form.username)
  {
    if form.password != form.confirmPassword then Some(PasswordsDiffer)
    else if UsernameInUse(users, form.username) then Some(UsernameTaken)
    else if EmailInUse(users, form.email) then Some(EmailTaken)
    else None
  }

  /**
    What `create_user` does to the username and the email before storing
    them: the framework's user manager normalises both (the username to a
    Unicode normal form, the email's domain part to lower case). That code
    is not part of this model, so the two normalisations are given.
   */
  datatype Normalisers = Normalisers(username: string -> string, email: string -> string)

  /** The user record `create_user` stores for a form. */
  function StoredUser(norm: Normalisers, form: RegistrationForm): User {
    User(norm.username(form.username), norm.email(form.email), form.password)
  }

  /** No two users share an email address; nothing in the schema demands it. */
  ghost predicate UniqueEmails(users: map<nat, User>) {
    forall a, b :: a in users && b in users && users[a].email == users[b].email ==> a == b
  }

  /**
    Storing a user under a new id keeps email addresses unique exactly when
    its email is not in use yet. The view checks the form's email, before
    normalisation, so a normalised form of an address in use gets through.
   */
  lemma StoredUserKeepsEmailsUnique(users: map<nat, User>, id: nat, u: User)
    requires UniqueEmails(users) && id !in users
    ensures UniqueEmails(users[id := u]) <==> !EmailInUse(users, u.email)
  {
    var users' := users[id := u];
    if EmailInUse(users, u.email) {
      var a :| a in users && users[a].email == u.email;
      assert a in users' && id in users' && users'[a].email == users'[id].email && a != id;
    } else {
      forall a | a in users
        ensures users'[a].email != u.email
      {
      }
    }
  }

  /** The tables after a registration: the new user `u`, and its profile holding `address`. */
  ghost predicate Registered(users0: map<nat, User>, profiles0: map<nat, UserProfile>, nextUser0: nat, nextProfile0: nat,
                             users: map<nat, User>, profiles: map<nat, UserProfile>, u: User, address: string) {
    && nextUser0 !in users0 && nextProfile0 !in profiles0
    && users == users0[nextUser0 := u]
    && profiles == profiles0[nextProfile0 := UserProfile(nextUser0, address)]
  }

  /** Proof step: filling in the address of a profile just added leaves the profile added with that address. */
  lemma OverwriteProfile(profiles: map<nat, UserProfile>, id: nat, added: UserProfile, address: string)
    ensures profiles[id := added][id := profiles[id := added][id].(address := address)]
         == profiles[id := added.(address := address)]
  {
  }

  /**
    The accepted branch of `user_register`: create the user, then fill in
    the address of the profile the signal made. `created` is false when the
    normalised username is taken, and then nothing is written.
   */
  method CreateAccount(db: Database, norm: Normalisers, form: RegistrationForm) returns (created: bool)
    requires db.Valid()
    modifies db
    ensures db.Valid()
    ensures db.coffees == old(db.coffees) && db.carts == old(db.carts)
    ensures created <==> !old(UsernameInUse(db.users, norm.username(form.username)))
    ensures !created ==> db.users == old(db.users) && db.profiles == old(db.profiles)
    ensures !created ==> db.nextUser == old(db.nextUser) && db.nextProfile == old(db.nextProfile)
    ensures created ==> db.nextUser == old(db.nextUser) + 1 && db.nextProfile == old(db.nextProfile) + 1
    ensures db.nextCart == old(db.nextCart)
    ensures created ==> Registered(old(db.users), old(db.profiles), old(db.nextUser), old(db.nextProfile),
                                   db.users, db.profiles, StoredUser(norm, form), form.address)
  {
    ghost var profiles0, nextProfile0 := db.profiles, db.nextProfile;
    var user;
    user, created := db.CreateUser(StoredUser(norm, form));
    if !created {
      return;
    }
    db.SaveUser(user);
    var profile := db.ProfileOf(user);
    assert profile == nextProfile0;
    db.SaveAddress(profile, form.address);
    OverwriteProfile(profiles0, profile, UserProfile(user, DefaultAddress), form.address);
  }

  /**
    `user_register`; `None` stands for a request that is not a POST. The
    checks compare the form's own username and email; `create_user` stores
    their normalised forms.
   */
  method Register(db: Database, norm: Normalisers, form: Option<RegistrationForm>) returns (r: Response)
    requires db.Valid()
    modifies db
    ensures db.Valid()
    ensures db.coffees == old(db.coffees) && db.carts == old(db.carts)
    ensures form.None? ==> r == RegisterPage(None)
    ensures form.Some? && Rejection(old(db.users), form.value).Some? ==> r == RegisterPage(Rejection(old(db.users), form.value))
    ensures form.Some? && Rejection(old(db.users), form.value).None? ==>
      if old(UsernameInUse(db.users, norm.username(form.value.username))) then r == ServerError
      else r == RedirectLogin
           && Registered(old(db.users), old(db.profiles), old(db.nextUser), old(db.nextProfile),
                         db.users, db.profiles, StoredUser(norm, form.value), form.value.address)
    ensures r != RedirectLogin ==> db.users == old(db.users) && db.profiles == old(db.profiles)
    ensures r != RedirectLogin ==> db.nextUser == old(db.nextUser) && db.nextProfile == old(db.nextProfile)
    ensures r == RedirectLogin ==> db.nextUser == old(db.nextUser) + 1 && db.nextProfile == old(db.nextProfile) + 1
    ensures db.nextCart == old(db.nextCart)
    ensures r == RedirectLogin && old(UniqueEmails(db.users)) ==>
      (UniqueEmails(db.users) <==> !old(EmailInUse(db.users, norm.email(form.value.email))))
  {
    if form.None? {
      return RegisterPage(None);
    }
    var f := form.value;
    if f.password != f.confirmPassword {
      return RegisterPage(Some(PasswordsDiffer));
    }
    if exists id :: id in db.users && db.users[id].username == f.username {
      return RegisterPage(Some(UsernameTaken));
    }
    if exists id :: id in db.users && db.users[id].email == f.email {
      return RegisterPage(Some(EmailTaken));
    }
    ghost var users0 := db.users;
    var created := CreateAccount(db, norm, f);
    if !created {
      return ServerError;
    }
    if UniqueEmails(users0) {
      StoredUserKeepsEmailsUnique(users0, old(db.nextUser), StoredUser(norm, f));
    }
    r := RedirectLogin;
  }
}
