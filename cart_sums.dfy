/**
  Sums over cart rows. `view_cart` adds price times quantity over the
  requesting user's rows; the same machinery counts the units of a coffee
  held in carts, which the cart views move to and from its stock. Rows are
  taken in increasing id order, and any other order gives the same sum.
 */
module CartSums {
  import opened Wrappers
  import opened ShopModels

  /** Some element of `ids` at or below `x` is below every element of `ids`. */
  lemma {:induction false} HasLeastBelow(ids: set<nat>, x: nat)
    requires x in ids
    ensures exists m :: m in ids && forall y :: y in ids ==> m <= y
    decreases x
  {
    if y :| y in ids && y < x {
      HasLeastBelow(ids, y);
    } else {
      assert forall y :: y in ids ==> x <= y;
    }
  }

  /** The smallest id of a non-empty set. */
  function Least(ids: set<nat>): (m: nat)
    requires ids != {}
    ensures m in ids && forall y :: y in ids ==> m <= y
  {
    var x :| x in ids;
    HasLeastBelow(ids, x);
    var m :| m in ids && forall y :: y in ids ==> m <= y;
    m
  }

  /** The sum of `weight` over the rows `ids` of `carts`. */
  function SumRows(ids: set<nat>, carts: map<nat, CartItem>, weight: CartItem -> int): int
    requires ids <= carts.Keys
    decreases ids
  {
    if ids == {} then 0
    else
      var id := Least(ids);
      weight(carts[id]) + SumRows(ids - {id}, carts, weight)
  }

  /** Any row may be taken first: the sum does not depend on the order of the rows. */
  lemma {:induction false} SumRowsTakeAny(ids: set<nat>, carts: map<nat, CartItem>, weight: CartItem -> int, id: nat)
    requires ids <= carts.Keys && id in ids
    ensures SumRows(ids, carts, weight) == weight(carts[id]) + SumRows(ids - {id}, carts, weight)
    decreases |ids|
  {
    var m := Least(ids);
    if id != m {
      assert m in ids - {id};
      assert Least(ids - {id}) == m;
      SumRowsTakeAny(ids - {m}, carts, weight, id);
      assert ids - {m} - {id} == ids - {id} - {m};
    }
  }

  /** Rows weighed the same in two tables give the same sum. */
  lemma {:induction false} SumRowsFrame(ids: set<nat>, carts1: map<nat, CartItem>, weight1: CartItem -> int,
                                        carts2: map<nat, CartItem>, weight2: CartItem -> int)
    requires ids <= carts1.Keys && ids <= carts2.Keys
    requires forall id :: id in ids ==> weight1(carts1[id]) == weight2(carts2[id])
    ensures SumRows(ids, carts1, weight1) == SumRows(ids, carts2, weight2)
    decreases |ids|
  {
    if ids != {} {
      SumRowsFrame(ids - {Least(ids)}, carts1, weight1, carts2, weight2);
    }
  }

  /** Non-negative weights give a non-negative sum. */
  lemma {:induction false} SumRowsNonNegative(ids: set<nat>, carts: map<nat, CartItem>, weight: CartItem -> int)
    requires ids <= carts.Keys
    requires forall id :: id in ids ==> weight(carts[id]) >= 0
    ensures SumRows(ids, carts, weight) >= 0
    decreases |ids|
  {
    if ids != {} {
      SumRowsNonNegative(ids - {Least(ids)}, carts, weight);
    }
  }

  /** What row `id` contributes to a sum over `ids`: its weight, or nothing if absent. */
  function Part(ids: set<nat>, carts: map<nat, CartItem>, weight: CartItem -> int, id: nat): int
    requires ids <= carts.Keys
  {
    if id in ids then weight(carts[id]) else 0
  }

  /** Changing, adding or removing one row changes a sum by that row's difference only. */
  lemma SumRowsChangeAt(ids1: set<nat>, carts1: map<nat, CartItem>, weight1: CartItem -> int,
                        ids2: set<nat>, carts2: map<nat, CartItem>, weight2: CartItem -> int, id: nat)
    requires ids1 <= carts1.Keys && ids2 <= carts2.Keys
    requires ids1 - {id} == ids2 - {id}
    requires forall x :: x in ids1 && x in ids2 && x != id ==> weight1(carts1[x]) == weight2(carts2[x])
    ensures SumRows(ids2, carts2, weight2)
         == SumRows(ids1, carts1, weight1) - Part(ids1, carts1, weight1, id) + Part(ids2, carts2, weight2, id)
  {
    if id in ids1 {
      SumRowsTakeAny(ids1, carts1, weight1, id);
    } else {
      assert ids1 - {id} == ids1;
    }
    if id in ids2 {
      SumRowsTakeAny(ids2, carts2, weight2, id);
    } else {
      assert ids2 - {id} == ids2;
    }
    SumRowsFrame(ids1 - {id}, carts1, weight1, carts2, weight2);
  }

  /**
    A row's price times quantity; `view_cart` reaches the price through the
    row's coffee, which always exists while the tables are consistent.
   */
  function LineValue(coffees: map<nat, Coffee>): CartItem -> int {
    (row: CartItem) => if row.coffee in coffees then coffees[row.coffee].price * row.quantity else 0
  }

  /** The total `view_cart` shows to `user`. */
  function CartTotal(carts: map<nat, CartItem>, coffees: map<nat, Coffee>, user: nat): int {
    SumRows(UserRows(carts, user), carts, LineValue(coffees))
  }

  function Units(row: CartItem): int {
    row.quantity
  }

  /** The units of `coffee` held in all carts together. */
  function UnitsInCarts(carts: map<nat, CartItem>, coffee: nat): int {
    SumRows(CoffeeRows(carts, coffee), carts, Units)
  }

  /** The quantity row `id` holds, or nothing if there is no such row. */
  function Held(carts: map<nat, CartItem>, id: nat): int {
    if id in carts then carts[id].quantity else 0
  }

  /** Two tables that differ at most in row `id`. */
  ghost predicate SameExceptAt(carts1: map<nat, CartItem>, carts2: map<nat, CartItem>, id: nat) {
    forall x :: x != id ==> (x in carts1 <==> x in carts2) && (x in carts1 ==> carts1[x] == carts2[x])
  }

  /** Two coffee tables with the same coffees at the same prices. */
  ghost predicate SamePrices(coffees1: map<nat, Coffee>, coffees2: map<nat, Coffee>) {
    coffees1.Keys == coffees2.Keys && forall c :: c in coffees1 ==> coffees1[c].price == coffees2[c].price
  }

  /** The units of every coffee, in stock plus in carts, are the same in two states. */
  ghost predicate UnitsConserved(coffees1: map<nat, Coffee>, carts1: map<nat, CartItem>,
                                 coffees2: map<nat, Coffee>, carts2: map<nat, CartItem>) {
    coffees1.Keys == coffees2.Keys
    && forall c :: c in coffees1 ==>
         coffees1[c].quantity + UnitsInCarts(carts1, c) == coffees2[c].quantity + UnitsInCarts(carts2, c)
  }

  /** Every user other than `user` sees the same total in two states. */
  ghost predicate OtherTotalsKept(user: nat, coffees1: map<nat, Coffee>, carts1: map<nat, CartItem>,
                                  coffees2: map<nat, Coffee>, carts2: map<nat, CartItem>) {
    forall v :: v != user ==> CartTotal(carts2, coffees2, v) == CartTotal(carts1, coffees1, v)
  }

  /** Deleting row `id` changes the table only there. */
  lemma DeleteRowChangesOnlyIt(carts: map<nat, CartItem>, id: nat)
    ensures SameExceptAt(carts, carts - {id}, id) && Held(carts - {id}, id) == 0
  {
  }

  /** Setting row `id` changes the table only there. */
  lemma SetRowChangesOnlyIt(carts: map<nat, CartItem>, id: nat, row: CartItem)
    ensures SameExceptAt(carts, carts[id := row], id) && Held(carts[id := row], id) == row.quantity
  {
  }

  /** Away from row `id`, two tables that differ only there have the same rows per user and per coffee. */
  lemma RowsAgreeAway(carts1: map<nat, CartItem>, carts2: map<nat, CartItem>, id: nat, user: nat, coffee: nat)
    requires SameExceptAt(carts1, carts2, id)
    ensures UserRows(carts1, user) - {id} == UserRows(carts2, user) - {id}
    ensures CoffeeRows(carts1, coffee) - {id} == CoffeeRows(carts2, coffee) - {id}
  {
  }

  /** A user's total moves by what row `id` contributes before and after. */
  lemma TotalChangeAt(carts1: map<nat, CartItem>, coffees1: map<nat, Coffee>,
                      carts2: map<nat, CartItem>, coffees2: map<nat, Coffee>, id: nat, user: nat)
    requires SameExceptAt(carts1, carts2, id) && SamePrices(coffees1, coffees2)
    ensures CartTotal(carts2, coffees2, user)
         == CartTotal(carts1, coffees1, user)
            - Part(UserRows(carts1, user), carts1, LineValue(coffees1), id)
            + Part(UserRows(carts2, user), carts2, LineValue(coffees2), id)
  {
    RowsAgreeAway(carts1, carts2, id, user, 0);
    SumRowsChangeAt(UserRows(carts1, user), carts1, LineValue(coffees1),
                    UserRows(carts2, user), carts2, LineValue(coffees2), id);
  }

  /** The units of a coffee in carts move by what row `id` holds of it before and after. */
  lemma UnitsChangeAt(carts1: map<nat, CartItem>, carts2: map<nat, CartItem>, id: nat, coffee: nat)
    requires SameExceptAt(carts1, carts2, id)
    ensures UnitsInCarts(carts2, coffee)
         == UnitsInCarts(carts1, coffee)
            - Part(CoffeeRows(carts1, coffee), carts1, Units, id)
            + Part(CoffeeRows(carts2, coffee), carts2, Units, id)
  {
    RowsAgreeAway(carts1, carts2, id, 0, coffee);
    SumRowsChangeAt(CoffeeRows(carts1, coffee), carts1, Units, CoffeeRows(carts2, coffee), carts2, Units, id);
  }

  /**
    When only row `id` (owned by `user`, holding `coffee`) changes and prices
    stay, the owner's total moves by the row's change in quantity times the price.
   */
  lemma OwnerTotalMoves(carts1: map<nat, CartItem>, coffees1: map<nat, Coffee>,
                        carts2: map<nat, CartItem>, coffees2: map<nat, Coffee>,
                        id: nat, user: nat, coffee: nat)
    requires SameExceptAt(carts1, carts2, id) && SamePrices(coffees1, coffees2) && coffee in coffees1
    requires id in carts1 ==> carts1[id].user == user && carts1[id].coffee == coffee
    requires id in carts2 ==> carts2[id].user == user && carts2[id].coffee == coffee
    ensures CartTotal(carts2, coffees2, user)
         == CartTotal(carts1, coffees1, user) + (Held(carts2, id) - Held(carts1, id)) * coffees1[coffee].price
  {
    TotalChangeAt(carts1, coffees1, carts2, coffees2, id, user);
    var price := coffees1[coffee].price;
    assert Part(UserRows(carts1, user), carts1, LineValue(coffees1), id) == Held(carts1, id) * price;
    assert Part(UserRows(carts2, user), carts2, LineValue(coffees2), id) == Held(carts2, id) * price;
    assert (Held(carts2, id) - Held(carts1, id)) * price == Held(carts2, id) * price - Held(carts1, id) * price;
  }

  /** When only row `id` (owned by `user`) changes and prices stay, every other user's total stays. */
  lemma OtherTotalsStay(carts1: map<nat, CartItem>, coffees1: map<nat, Coffee>,
                        carts2: map<nat, CartItem>, coffees2: map<nat, Coffee>, id: nat, user: nat)
    requires SameExceptAt(carts1, carts2, id) && SamePrices(coffees1, coffees2)
    requires id in carts1 ==> carts1[id].user == user
    requires id in carts2 ==> carts2[id].user == user
    ensures OtherTotalsKept(user, coffees1, carts1, coffees2, carts2)
  {
    forall v | v != user
      ensures CartTotal(carts2, coffees2, v) == CartTotal(carts1, coffees1, v)
    {
      TotalChangeAt(carts1, coffees1, carts2, coffees2, id, v);
    }
  }

  /** When only row `id` (holding `coffee`) changes, the units of `coffee` in carts move by its change in quantity. */
  lemma CoffeeUnitsMove(carts1: map<nat, CartItem>, carts2: map<nat, CartItem>, id: nat, coffee: nat)
    requires SameExceptAt(carts1, carts2, id)
    requires id in carts1 ==> carts1[id].coffee == coffee
    requires id in carts2 ==> carts2[id].coffee == coffee
    ensures UnitsInCarts(carts2, coffee) == UnitsInCarts(carts1, coffee) + Held(carts2, id) - Held(carts1, id)
  {
    UnitsChangeAt(carts1, carts2, id, coffee);
  }

  /** When only row `id` (holding `coffee`) changes, the units of every other coffee in carts stay. */
  lemma OtherUnitsStay(carts1: map<nat, CartItem>, carts2: map<nat, CartItem>, id: nat, coffee: nat)
    requires SameExceptAt(carts1, carts2, id)
    requires id in carts1 ==> carts1[id].coffee == coffee
    requires id in carts2 ==> carts2[id].coffee == coffee
    ensures forall d :: d != coffee ==> UnitsInCarts(carts2, d) == UnitsInCarts(carts1, d)
  {
    forall d | d != coffee
      ensures UnitsInCarts(carts2, d) == UnitsInCarts(carts1, d)
    {
      UnitsChangeAt(carts1, carts2, id, d);
    }
  }

  /**
    Moving units between row `id` (holding `coffee`) and that coffee's stock,
    and changing nothing else, leaves every coffee's units in stock plus in
    carts as they were.
   */
  lemma UnitsConservedAt(coffees1: map<nat, Coffee>, carts1: map<nat, CartItem>,
                         coffees2: map<nat, Coffee>, carts2: map<nat, CartItem>, id: nat, coffee: nat)
    requires SameExceptAt(carts1, carts2, id)
    requires id in carts1 ==> carts1[id].coffee == coffee
    requires id in carts2 ==> carts2[id].coffee == coffee
    requires coffee in coffees1 && coffees2.Keys == coffees1.Keys
    requires coffees2[coffee].quantity == coffees1[coffee].quantity - (Held(carts2, id) - Held(carts1, id))
    requires forall c :: c in coffees1 && c != coffee ==> coffees2[c].quantity == coffees1[c].quantity
    ensures UnitsConserved(coffees1, carts1, coffees2, carts2)
  {
    CoffeeUnitsMove(carts1, carts2, id, coffee);
    OtherUnitsStay(carts1, carts2, id, coffee);
  }

  /** The row `get_or_create` finds for `user` and `coffee`, if there is one. */
  function FindRow(carts: map<nat, CartItem>, user: nat, coffee: nat): (r: Option<nat>)
    ensures r.None? <==> RowsFor(carts, user, coffee) == {}
    ensures r.Some? ==> r.value in carts && carts[r.value].user == user && carts[r.value].coffee == coffee
  {
    var rows := RowsFor(carts, user, coffee);
    if rows == {} then None else Some(Least(rows))
  }

  /** How many units of `coffee` the cart of `user` holds. */
  function Holding(carts: map<nat, CartItem>, user: nat, coffee: nat): int {
    match FindRow(carts, user, coffee)
    case None => 0
    case Some(id) => carts[id].quantity
  }

  /** With one row per user and coffee, the row found is the row there is. */
  lemma FoundRowIsOnlyRow(carts: map<nat, CartItem>, id: nat)
    requires OneRowPerCoffee(carts) && id in carts
    ensures FindRow(carts, carts[id].user, carts[id].coffee) == Some(id)
    ensures Holding(carts, carts[id].user, carts[id].coffee) == carts[id].quantity
  {
    assert RowsFor(carts, carts[id].user, carts[id].coffee) == {id};
  }

  /** Setting a row keeps one row per user and coffee, if no other row holds its pair. */
  lemma SetRowKeepsOneRowPerCoffee(carts: map<nat, CartItem>, id: nat, row: CartItem)
    requires OneRowPerCoffee(carts)
    requires RowsFor(carts, row.user, row.coffee) <= {id}
    ensures OneRowPerCoffee(carts[id := row])
  {
    forall x | x in carts && carts[x].user == row.user && carts[x].coffee == row.coffee
      ensures x == id
    {
      assert x in RowsFor(carts, row.user, row.coffee);
    }
  }

  /** With non-negative prices and quantities, a cart total is never negative. */
  lemma CartTotalNonNegative(carts: map<nat, CartItem>, coffees: map<nat, Coffee>, user: nat)
    requires forall c :: c in coffees ==> coffees[c].price >= 0
    requires forall id :: id in carts ==> carts[id].quantity >= 0
    ensures CartTotal(carts, coffees, user) >= 0
  {
    SumRowsNonNegative(UserRows(carts, user), carts, LineValue(coffees));
  }

  /**
    Deleting a user cascades to exactly that user's cart: none of its rows
    is left, and every other user keeps the same rows and the same total.
   */
  lemma DeleteUserKeepsOtherCarts(carts: map<nat, CartItem>, coffees: map<nat, Coffee>, id: nat, other: nat)
    ensures UserRows(CartsWithoutUser(carts, id), id) == {}
    ensures other != id ==> UserRows(CartsWithoutUser(carts, id), other) == UserRows(carts, other)
    ensures other != id ==> CartTotal(CartsWithoutUser(carts, id), coffees, other) == CartTotal(carts, coffees, other)
  {
    var kept := CartsWithoutUser(carts, id);
    if other != id {
      assert UserRows(kept, other) == UserRows(carts, other);
      SumRowsFrame(UserRows(carts, other), kept, LineValue(coffees), carts, LineValue(coffees));
    }
  }

  /**
    Deleting a coffee cascades to exactly the rows holding it: no unit of it
    is left in any cart, and every other coffee has as many units in carts
    as before.
   */
  lemma DeleteCoffeeKeepsOtherUnits(carts: map<nat, CartItem>, id: nat, other: nat)
    ensures UnitsInCarts(CartsWithoutCoffee(carts, id), id) == 0
    ensures other != id ==> UnitsInCarts(CartsWithoutCoffee(carts, id), other) == UnitsInCarts(carts, other)
  {
    var kept := CartsWithoutCoffee(carts, id);
    assert CoffeeRows(kept, id) == {};
    if other != id {
      assert CoffeeRows(kept, other) == CoffeeRows(carts, other);
      SumRowsFrame(CoffeeRows(carts, other), kept, Units, carts, Units);
    }
  }
}
