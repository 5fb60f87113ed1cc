/**
  The storefront's records and the database tables that hold them. Each
  table is a map from row id to record; ids come from one counter per table,
  as auto-increment keys do. The class also carries what the ORM does on
  its own: the profile that the `post_save` signal creates for every new
  user, and the cascades of the foreign keys on delete.
 */
module ShopModels {

  /** A coffee on sale. The price is held in whole cents. */
  datatype Coffee = Coffee(name: string, price: int, quantity: int)

  /** One user's holding of one coffee. */
  datatype CartItem = CartItem(user: nat, coffee: nat, quantity: int)

  /** The fields of the framework's user record that the storefront reads. */
  datatype User = User(username: string, email: string, password: string)

  /** The one-to-one extension of a user with a postal address. */
  datatype UserProfile = UserProfile(user: nat, address: string)

  /** The quantity a cart row gets when it is created without one. */
  const DefaultCartQuantity: int := 1

  /** The address a profile gets when the signal creates it: a text field's empty default. */
  const DefaultAddress: string := ""

  /** The rows that belong to `user`: `Cart.objects.filter(user=...)`. */
  function UserRows(carts: map<nat, CartItem>, user: nat): (ids: set<nat>)
    ensures ids <= carts.Keys
  {
    set id | id in carts && carts[id].user == user
  }

  /** The rows that hold `coffee`, whoever owns them. */
  function CoffeeRows(carts: map<nat, CartItem>, coffee: nat): (ids: set<nat>)
    ensures ids <= carts.Keys
  {
    set id | id in carts && carts[id].coffee == coffee
  }

  /** The rows of `carts` that belong to `user` and hold `coffee`. */
  function RowsFor(carts: map<nat, CartItem>, user: nat, coffee: nat): set<nat> {
    UserRows(carts, user) * CoffeeRows(carts, coffee)
  }

  predicate UsernameInUse(users: map<nat, User>, username: string) {
    exists id :: id in users && users[id].username == username
  }

  /** The framework's user table declares the username column unique. */
  ghost predicate UniqueUsernames(users: map<nat, User>) {
    forall a, b :: a in users && b in users && users[a].username == users[b].username ==> a == b
  }

  /** Adding a user under a new id and an unused username keeps usernames unique. */
  lemma InsertUserKeepsUsernamesUnique(users: map<nat, User>, id: nat, u: User)
    requires UniqueUsernames(users) && id !in users && !UsernameInUse(users, u.username)
    ensures UniqueUsernames(users[id := u])
  {
    forall a | a in users
      ensures users[a].username != u.username
    {
    }
  }

  /** Every cart row's coffee exists. */
  ghost predicate CoffeesResolve(coffees: map<nat, Coffee>, carts: map<nat, CartItem>) {
    forall id :: id in carts ==> carts[id].coffee in coffees
  }

  /** Every foreign key points at an existing row (deletes cascade). */
  ghost predicate KeysResolve(coffees: map<nat, Coffee>, carts: map<nat, CartItem>, users: map<nat, User>, profiles: map<nat, UserProfile>) {
    && CoffeesResolve(coffees, carts)
    && (forall id :: id in carts ==> carts[id].user in users)
    && (forall id :: id in profiles ==> profiles[id].user in users)
  }

  /** The profile's user field is one-to-one. */
  ghost predicate OneProfilePerUser(profiles: map<nat, UserProfile>) {
    forall p, q :: p in profiles && q in profiles && profiles[p].user == profiles[q].user ==> p == q
  }

  /** The signal has given every user a profile. */
  ghost predicate EveryUserHasProfile(users: map<nat, User>, profiles: map<nat, UserProfile>) {
    forall u :: u in users ==> exists p :: p in profiles && profiles[p].user == u
  }

  /** Rows are only made by `get_or_create`, so one user holds one coffee in at most one row. */
  ghost predicate OneRowPerCoffee(carts: map<nat, CartItem>) {
    forall a, b :: a in carts && b in carts && carts[a].user == carts[b].user && carts[a].coffee == carts[b].coffee ==> a == b
  }

  ghost predicate TablesValid(coffees: map<nat, Coffee>, carts: map<nat, CartItem>, users: map<nat, User>, profiles: map<nat, UserProfile>) {
    KeysResolve(coffees, carts, users, profiles) && OneProfilePerUser(profiles)
    && EveryUserHasProfile(users, profiles) && OneRowPerCoffee(carts)
  }

  /** The counters are past every id in use. */
  ghost predicate IdsBelow(carts: map<nat, CartItem>, users: map<nat, User>, profiles: map<nat, UserProfile>,
                           nextCart: nat, nextUser: nat, nextProfile: nat) {
    && (forall id :: id in carts ==> id < nextCart)
    && (forall id :: id in users ==> id < nextUser)
    && (forall id :: id in profiles ==> id < nextProfile)
  }

  /**
    No stock is negative and every cart row holds at least one unit. The
    schema does not enforce either; the cart views keep them.
   */
  ghost predicate StockedTables(coffees: map<nat, Coffee>, carts: map<nat, CartItem>) {
    && (forall c :: c in coffees ==> coffees[c].quantity >= 0)
    && (forall id :: id in carts ==> carts[id].quantity >= 1)
  }

  /** The cart rows that survive deleting user `id`. */
  function CartsWithoutUser(carts: map<nat, CartItem>, id: nat): map<nat, CartItem> {
    map r | r in carts && carts[r].user != id :: carts[r]
  }

  /** The profiles that survive deleting user `id`. */
  function ProfilesWithoutUser(profiles: map<nat, UserProfile>, id: nat): map<nat, UserProfile> {
    map p | p in profiles && profiles[p].user != id :: profiles[p]
  }

  /** The cart rows that survive deleting coffee `id`. */
  function CartsWithoutCoffee(carts: map<nat, CartItem>, id: nat): map<nat, CartItem> {
    map r | r in carts && carts[r].coffee != id :: carts[r]
  }

  /** Deleting a user together with the rows that refer to it keeps the tables consistent. */
  lemma DeleteUserKeepsTablesValid(coffees: map<nat, Coffee>, carts: map<nat, CartItem>, users: map<nat, User>,
                                   profiles: map<nat, UserProfile>, id: nat)
    requires TablesValid(coffees, carts, users, profiles)
    ensures TablesValid(coffees, CartsWithoutUser(carts, id), users - {id}, ProfilesWithoutUser(profiles, id))
  {
    var profiles' := ProfilesWithoutUser(profiles, id);
    forall u | u in users - {id}
      ensures exists p :: p in profiles' && profiles'[p].user == u
    {
      var p :| p in profiles && profiles[p].user == u;
      assert p in profiles';
    }
  }

  /** Deleting a coffee together with the cart rows that hold it keeps the tables consistent. */
  lemma DeleteCoffeeKeepsTablesValid(coffees: map<nat, Coffee>, carts: map<nat, CartItem>, users: map<nat, User>,
                                     profiles: map<nat, UserProfile>, id: nat)
    requires TablesValid(coffees, carts, users, profiles)
    ensures TablesValid(coffees - {id}, CartsWithoutCoffee(carts, id), users, profiles)
  {
  }

  /** A new user inserted with a new profile keeps the tables consistent. */
  lemma InsertUserKeepsTablesValid(coffees: map<nat, Coffee>, carts: map<nat, CartItem>, users: map<nat, User>,
                                   profiles: map<nat, UserProfile>, id: nat, u: User, p: nat)
    requires TablesValid(coffees, carts, users, profiles)
    requires id !in users && p !in profiles
    ensures TablesValid(coffees, carts, users[id := u], profiles[p := UserProfile(id, DefaultAddress)])
  {
    var users' := users[id := u];
    var profiles' := profiles[p := UserProfile(id, DefaultAddress)];
    forall v | v in users'
      ensures exists q :: q in profiles' && profiles'[q].user == v
    {
      if v == id {
        assert profiles'[p].user == v;
      } else {
        var q :| q in profiles && profiles[q].user == v;
        assert q in profiles';
      }
    }
  }

  /** Changing a profile's address keeps the tables consistent. */
  lemma AddressChangeKeepsTablesValid(coffees: map<nat, Coffee>, carts: map<nat, CartItem>, users: map<nat, User>,
                                      profiles: map<nat, UserProfile>, id: nat, address: string)
    requires TablesValid(coffees, carts, users, profiles) && id in profiles
    ensures TablesValid(coffees, carts, users, profiles[id := profiles[id].(address := address)])
  {
    var profiles' := profiles[id := profiles[id].(address := address)];
    forall u | u in users
      ensures exists p :: p in profiles' && profiles'[p].user == u
    {
      var p :| p in profiles && profiles[p].user == u;
      assert p in profiles' && profiles'[p].user == u;
    }
  }

  class Database {
    var coffees: map<nat, Coffee>
    var carts: map<nat, CartItem>
    var users: map<nat, User>
    var profiles: map<nat, UserProfile>
    var nextCart: nat
    var nextUser: nat
    var nextProfile: nat

    ghost predicate Valid()
      reads this
    {
      TablesValid(coffees, carts, users, profiles) && IdsBelow(carts, users, profiles, nextCart, nextUser, nextProfile)
      && UniqueUsernames(users)
    }

    /** See `StockedTables`. */
    ghost predicate Stocked()
      reads this
    {
      StockedTables(coffees, carts)
    }

    constructor ()
      ensures Valid() && Stocked()
      ensures coffees == map[] && carts == map[] && users == map[] && profiles == map[]
    {
      coffees, carts, users, profiles := map[], map[], map[], map[];
      nextCart, nextUser, nextProfile := 0, 0, 0;
    }

    /**
      The `post_save` receiver for users: a user saved for the first time
      gets a profile with the default address; a re-saved user gets none.
     */
    method CreateUserProfile(user: nat, created: bool)
      requires user in users
      requires created ==> forall p :: p in profiles ==> profiles[p].user != user
      requires forall p :: p in profiles ==> p < nextProfile
      modifies this
      ensures created ==> profiles == old(profiles)[old(nextProfile) := UserProfile(user, DefaultAddress)]
      ensures created ==> nextProfile == old(nextProfile) + 1 && old(nextProfile) !in old(profiles)
      ensures !created ==> profiles == old(profiles) && nextProfile == old(nextProfile)
      ensures coffees == old(coffees) && carts == old(carts) && users == old(users)
      ensures nextCart == old(nextCart) && nextUser == old(nextUser)
    {
      if created {
        profiles := profiles[nextProfile := UserProfile(user, DefaultAddress)];
        nextProfile := nextProfile + 1;
      }
    }

    /**
      Inserting a new user; the save fires the signal with `created` set.
      A username already in use fails the unique column's constraint
      (`IntegrityError`) before anything is written.
     */
    method CreateUser(u: User) returns (id: nat, inserted: bool)
      requires Valid()
      modifies this
      ensures Valid()
      ensures inserted <==> !UsernameInUse(old(users), u.username)
      ensures !inserted ==> users == old(users) && profiles == old(profiles)
                            && nextUser == old(nextUser) && nextProfile == old(nextProfile)
      ensures inserted ==> id == old(nextUser) && id !in old(users)
      ensures inserted ==> users == old(users)[id := u]
      ensures inserted ==> profiles == old(profiles)[old(nextProfile) := UserProfile(id, DefaultAddress)]
      ensures inserted ==> old(nextProfile) !in old(profiles)
      ensures inserted ==> nextUser == old(nextUser) + 1 && nextProfile == old(nextProfile) + 1
      ensures coffees == old(coffees) && carts == old(carts) && nextCart == old(nextCart)
      ensures old(Stocked()) ==> Stocked()
    {
      if exists other :: other in users && users[other].username == u.username {
        return 0, false;
      }
      id, inserted := nextUser, true;
      InsertUserKeepsUsernamesUnique(users, id, u);
      nextUser := nextUser + 1;
      users := users[id := u];
      CreateUserProfile(id, true);
      InsertUserKeepsTablesValid(coffees, carts, old(users), old(profiles), id, u, old(nextProfile));
    }

    /** Saving a user that is already stored; the signal fires with `created` clear. */
    method SaveUser(id: nat)
      requires Valid() && id in users
      modifies this
      ensures Valid()
      ensures profiles == old(profiles) && users == old(users)
      ensures coffees == old(coffees) && carts == old(carts)
      ensures nextCart == old(nextCart) && nextUser == old(nextUser) && nextProfile == old(nextProfile)
    {
      CreateUserProfile(id, false);
    }

    /** `UserProfile.objects.get(user=...)`: the user's one profile. */
    method ProfileOf(user: nat) returns (p: nat)
      requires Valid() && user in users
      ensures p in profiles && profiles[p].user == user
      ensures forall q :: q in profiles && profiles[q].user == user ==> q == p
    {
      p :| p in profiles && profiles[p].user == user;
    }

    /** Deleting a coffee deletes every cart row that holds it. */
    method DeleteCoffee(id: nat)
      requires Valid()
      modifies this
      ensures Valid()
      ensures coffees == old(coffees) - {id}
      ensures carts == CartsWithoutCoffee(old(carts), id)
      ensures users == old(users) && profiles == old(profiles)
      ensures nextCart == old(nextCart) && nextUser == old(nextUser) && nextProfile == old(nextProfile)
      ensures old(Stocked()) ==> Stocked()
    {
      var keptCarts := CartsWithoutCoffee(carts, id);
      DeleteCoffeeKeepsTablesValid(coffees, carts, users, profiles, id);
      coffees, carts := coffees - {id}, keptCarts;
    }

    /** Deleting a user deletes the user's cart rows and profile. */
    method DeleteUser(id: nat)
      requires Valid()
      modifies this
      ensures Valid()
      ensures users == old(users) - {id}
      ensures carts == CartsWithoutUser(old(carts), id)
      ensures profiles == ProfilesWithoutUser(old(profiles), id)
      ensures coffees == old(coffees)
      ensures nextCart == old(nextCart) && nextUser == old(nextUser) && nextProfile == old(nextProfile)
      ensures old(Stocked()) ==> Stocked()
    {
      var keptCarts := CartsWithoutUser(carts, id);
      var keptProfiles := ProfilesWithoutUser(profiles, id);
      DeleteUserKeepsTablesValid(coffees, carts, users, profiles, id);
      users, carts, profiles := users - {id}, keptCarts, keptProfiles;
    }

    /**
      `Cart.objects.get_or_create(user=..., coffee=...)`: the user's row for
      the coffee, or a new row with the default quantity when there is none.
     */
    method GetOrCreateCart(user: nat, coffee: nat) returns (id: nat, created: bool)
      requires Valid() && user in users && coffee in coffees
      modifies this
      ensures Valid()
      ensures id in carts && carts[id].user == user && carts[id].coffee == coffee
      ensures created <==> RowsFor(old(carts), user, coffee) == {}
      ensures !created ==> carts == old(carts) && nextCart == old(nextCart)
      ensures created ==> id == old(nextCart) && id !in old(carts) && nextCart == old(nextCart) + 1
      ensures created ==> carts == old(carts)[id := CartItem(user, coffee, DefaultCartQuantity)]
      ensures coffees == old(coffees) && users == old(users) && profiles == old(profiles)
      ensures nextUser == old(nextUser) && nextProfile == old(nextProfile)
      ensures old(Stocked()) ==> Stocked()
    {
      if r :| r in carts && carts[r].user == user && carts[r].coffee == coffee {
        assert r in RowsFor(carts, user, coffee);
        id, created := r, false;
      } else {
        assert RowsFor(carts, user, coffee) == {};
        id, created := nextCart, true;
        carts := carts[id := CartItem(user, coffee, DefaultCartQuantity)];
        nextCart := nextCart + 1;
      }
    }

    /** `cart_item.save()` after setting its quantity. */
    method SaveCartQuantity(id: nat, quantity: int)
      requires Valid() && id in carts
      modifies this
      ensures Valid()
      ensures carts == old(carts)[id := old(carts)[id].(quantity := quantity)]
      ensures coffees == old(coffees) && users == old(users) && profiles == old(profiles)
      ensures nextCart == old(nextCart) && nextUser == old(nextUser) && nextProfile == old(nextProfile)
    {
      carts := carts[id := carts[id].(quantity := quantity)];
    }

    /** `coffee.save()` after setting its stock. */
    method SaveStock(id: nat, quantity: int)
      requires Valid() && id in coffees
      modifies this
      ensures Valid()
      ensures coffees == old(coffees)[id := old(coffees)[id].(quantity := quantity)]
      ensures carts == old(carts) && users == old(users) && profiles == old(profiles)
      ensures nextCart == old(nextCart) && nextUser == old(nextUser) && nextProfile == old(nextProfile)
    {
      coffees := coffees[id := coffees[id].(quantity := quantity)];
    }

    /** `cart_item.delete()`: nothing refers to a cart row, so nothing cascades. */
    method DeleteCart(id: nat)
      requires Valid()
      modifies this
      ensures Valid()
      ensures carts == old(carts) - {id}
      ensures coffees == old(coffees) && users == old(users) && profiles == old(profiles)
      ensures nextCart == old(nextCart) && nextUser == old(nextUser) && nextProfile == old(nextProfile)
    {
      carts := carts - {id};
    }

    /** `user_profile.save()` after setting its address. */
    method SaveAddress(id: nat, address: string)
      requires Valid() && id in profiles
      modifies this
      ensures Valid()
      ensures profiles == old(profiles)[id := old(profiles)[id].(address := address)]
      ensures coffees == old(coffees) && carts == old(carts) && users == old(users)
      ensures nextCart == old(nextCart) && nextUser == old(nextUser) && nextProfile == old(nextProfile)
    {
      AddressChangeKeepsTablesValid(coffees, carts, users, profiles, id, address);
      profiles := profiles[id := profiles[id].(address := address)];
    }
  }
}
