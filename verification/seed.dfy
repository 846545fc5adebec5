/** Demo data: the three staff accounts, the grocery catalogue and the five
    credit customers written into an empty store, and the reset that wipes
    everything but the accounts.

    The identifier source and `Math.random` are inputs: `ids` lists the
    identifiers in the order they are drawn (3 users, 23 products, then 5
    customers) and `draws` the 23 random numbers behind the stock levels. */
module Seed {
  import opened Options
  import opened Records
  import opened Ledger

  const SeedUserCount: nat := 3
  const SeedProductCount: nat := 23
  const SeedCustomerCount: nat := 5
  const SeedIdCount: nat := SeedUserCount + SeedProductCount + SeedCustomerCount

  /** `randomStock(min, max)` for a draw in [0, 1). */
  function RandomStock(min: int, max: int, draw: real): (r: int)
    requires 0.0 <= draw < 1.0
    ensures min <= max ==> min <= r <= max
  {
    var span := max - min + 1;
    if min <= max then
      assert 0.0 <= draw * span as real < span as real;
      (draw * span as real).Floor + min
    else (draw * span as real).Floor + min
  }

  // ---------------------------------------------------------------------
  // The data

  function SeedUsers(ids: seq<Id>): (r: seq<User>)
    requires |ids| >= SeedUserCount
    ensures |r| == SeedUserCount
    ensures forall i :: 0 <= i < |r| ==> r[i].id == ids[i] && r[i].fullName.Some?
  {
    [ User(ids[0], "Memory_owner", Some("owner123"), OwnerRole, "1982", Some("Memory Tsindi")),
      User(ids[1], "Tshiamo_assistant", Some("assist123"), "assistant", "1234", Some("John SmithTshiamo Sebueng")),
      User(ids[2], "Martin_cashier", Some("cashier123"), "assistant", "1975", Some("Martin Tsindi")) ]
  }

  /** A catalogue entry: a product whose stock is drawn from
      [`minStock`, `maxStock`]. */
  datatype CatalogueEntry = CatalogueEntry(
    name: string, description: string, price: real, cost: real,
    minStock: int, maxStock: int, category: string, barcode: string)

  const Catalogue: seq<CatalogueEntry> := [
    CatalogueEntry("Bananas", "Fresh yellow bananas", 0.59, 0.35, 50, 100, "Produce", "400000001"),
    CatalogueEntry("Apples", "Red delicious apples", 1.29, 0.80, 40, 80, "Produce", "400000002"),
    CatalogueEntry("Carrots", "Organic carrots 1lb", 0.99, 0.60, 30, 60, "Produce", "400000003"),
    CatalogueEntry("Potatoes", "Russet potatoes 5lb bag", 3.99, 2.50, 20, 40, "Produce", "400000004"),
    CatalogueEntry("Milk", "Whole milk 1 gallon", 3.49, 2.20, 25, 50, "Dairy", "400000005"),
    CatalogueEntry("Eggs", "Large eggs dozen", 2.99, 1.80, 30, 60, "Dairy", "400000006"),
    CatalogueEntry("Butter", "Salted butter 1lb", 4.49, 2.80, 20, 40, "Dairy", "400000007"),
    CatalogueEntry("Yogurt", "Greek yogurt 32oz", 5.99, 3.50, 15, 30, "Dairy", "400000008"),
    CatalogueEntry("White Bread", "Fresh white bread loaf", 2.49, 1.40, 20, 40, "Bakery", "400000009"),
    CatalogueEntry("Croissants", "Buttery croissants 4pk", 3.99, 2.20, 15, 30, "Bakery", "400000010"),
    CatalogueEntry("Chicken Breast", "Boneless skinless 1lb", 5.99, 3.80, 15, 30, "Meat", "400000011"),
    CatalogueEntry("Ground Beef", "80/20 ground beef 1lb", 6.49, 4.00, 12, 25, "Meat", "400000012"),
    CatalogueEntry("Bacon", "Smoked bacon 12oz", 5.49, 3.20, 10, 20, "Meat", "400000013"),
    CatalogueEntry("Orange Juice", "100% pure OJ 64oz", 4.99, 3.00, 18, 35, "Beverages", "400000014"),
    CatalogueEntry("Coffee", "Ground coffee 12oz", 7.99, 4.50, 15, 25, "Beverages", "400000015"),
    CatalogueEntry("Soda", "Cola 2L bottle", 2.49, 1.20, 30, 60, "Beverages", "400000016"),
    CatalogueEntry("Bottled Water", "Purified water 24pk", 4.99, 2.80, 25, 50, "Beverages", "400000017"),
    CatalogueEntry("Chips", "Potato chips 10oz", 3.99, 2.00, 25, 50, "Snacks", "400000018"),
    CatalogueEntry("Cookies", "Chocolate chip cookies", 2.99, 1.50, 20, 40, "Snacks", "400000019"),
    CatalogueEntry("Pasta", "Spaghetti 1lb", 1.49, 0.80, 40, 80, "Pantry", "400000020"),
    CatalogueEntry("Rice", "Long grain rice 2lb", 2.99, 1.60, 30, 60, "Pantry", "400000021"),
    CatalogueEntry("Canned Soup", "Chicken noodle soup", 1.79, 0.90, 35, 70, "Pantry", "400000022"),
    CatalogueEntry("Cereal", "Corn flakes 18oz", 3.49, 1.80, 20, 40, "Pantry", "400000023")
  ]

  predicate ValidDraws(draws: seq<real>) {
    |draws| == SeedProductCount && forall i :: 0 <= i < |draws| ==> 0.0 <= draws[i] < 1.0
  }

  function SeedProduct(e: CatalogueEntry, id: Id, draw: real): Product
    requires 0.0 <= draw < 1.0
  {
    Product(id, e.name, e.description, e.price, e.cost,
            RandomStock(e.minStock, e.maxStock, draw), e.category, e.barcode)
  }

  /** The catalogue with its ids and drawn stock levels. */
  function SeedProducts(ids: seq<Id>, draws: seq<real>): (r: seq<Product>)
    requires |ids| == SeedIdCount && ValidDraws(draws)
    ensures |r| == SeedProductCount
    ensures forall i :: 0 <= i < |r| ==> r[i].id == ids[SeedUserCount + i]
  {
    seq(SeedProductCount, i requires 0 <= i < SeedProductCount =>
          SeedProduct(Catalogue[i], ids[SeedUserCount + i], draws[i]))
  }

  /** The seed customers carry no id; `createCustomer` gives them one. */
  const SeedCustomers: seq<Customer> := [
    Customer("", "Robert Wilson", "555-0101", "robert.wilson@email.com", "123 Main St", Some(500.00), Some(125.50)),
    Customer("", "Lisa Chen", "555-0102", "lisa.chen@email.com", "456 Oak Ave", Some(300.00), Some(45.75)),
    Customer("", "Mike Johnson", "555-0103", "mike.johnson@email.com", "789 Pine Rd", Some(1000.00), Some(320.25)),
    Customer("", "Sarah Davis", "555-0104", "sarah.davis@email.com", "321 Elm St", Some(200.00), Some(89.99)),
    Customer("", "David Martinez", "555-0105", "david.martinez@email.com", "654 Maple Dr", Some(750.00), Some(210.00))
  ]

  /** The seed customers are ready for `createCustomer` (no id yet, a
      balance each) and each has a positive limit that its balance is
      within. */
  lemma SeedCustomersReady()
    ensures |SeedCustomers| == SeedCustomerCount
    ensures forall i :: 0 <= i < |SeedCustomers| ==>
              SeedCustomers[i].id == "" && SeedCustomers[i].currentBalance.Some?
    ensures forall i :: 0 <= i < |SeedCustomers| ==>
              && SeedCustomers[i].creditLimit.Some? && SeedCustomers[i].creditLimit.value > 0.0
              && 0.0 <= SeedCustomers[i].currentBalance.value <= SeedCustomers[i].creditLimit.value
  {
  }

  // ---------------------------------------------------------------------
  // Writing the data through the store's own operations

  predicate AllIdentified(ids: seq<Id>) {
    forall i :: 0 <= i < |ids| ==> ids[i] != ""
  }

  /** `for (const user of users) await createUser(user)`. A user that
      already carries an id and a full name is stored as given. */
  function CreateUsers(users: seq<User>, us: seq<User>): (r: seq<User>)
    requires forall i :: 0 <= i < |us| ==> us[i].id != "" && us[i].fullName.Some?
    ensures r == users + us
    decreases |us|
  {
    if |us| == 0 then users
    else
      assert us == [us[0]] + us[1..];
      CreateUsers(CreateUser(users, us[0], us[0].id).table, us[1..])
  }

  /** `for (const product of groceryProducts) await saveProduct(product)`:
      every seeded product already carries its id. */
  function SaveProducts(products: seq<Product>, ps: seq<Product>): (r: seq<Product>)
    requires forall i :: 0 <= i < |ps| ==> ps[i].id != ""
    ensures r == products + ps
    decreases |ps|
  {
    if |ps| == 0 then products
    else
      assert ps == [ps[0]] + ps[1..];
      SaveProducts(SaveProduct(products, ps[0], ps[0].id).table, ps[1..])
  }

  /** `for (const customer of customers) await createCustomer(customer)`:
      customer `i` receives `ids[i]`. */
  function CreateCustomers(customers: seq<Customer>, cs: seq<Customer>, ids: seq<Id>): (r: seq<Customer>)
    requires |ids| == |cs| && AllIdentified(ids)
    requires forall i :: 0 <= i < |cs| ==> cs[i].id == "" && cs[i].currentBalance.Some?
    ensures |r| == |customers| + |cs|
    ensures r[..|customers|] == customers
    ensures forall i :: 0 <= i < |cs| ==> r[|customers| + i] == cs[i].(id := ids[i])
    decreases |cs|
  {
    if |cs| == 0 then customers
    else
      var once := CreateCustomer(customers, cs[0], ids[0]).table;
      var r := CreateCustomers(once, cs[1..], ids[1..]);
      assert r[..|customers|] == once[..|customers|];
      r
  }

  // ---------------------------------------------------------------------
  // Seeding and clearing

  /** The store counts as empty with at most the default account, no
      products and no customers; sales are not looked at. */
  predicate LooksEmpty(s: Store) {
    |s.users| <= 1 && |s.products| == 0 && |s.customers| == 0
  }

  datatype SeedResult = SeedResult(store: Store, seeded: bool)

  /** The guard and the three write loops of `seedDatabase`, for any
      accounts, products and customers ready to be written. */
  function SeedWith(s: Store, users: seq<User>, products: seq<Product>,
                    customers: seq<Customer>, customerIds: seq<Id>): (r: SeedResult)
    requires forall i :: 0 <= i < |users| ==> users[i].id != "" && users[i].fullName.Some?
    requires forall i :: 0 <= i < |products| ==> products[i].id != ""
    requires |customerIds| == |customers| && AllIdentified(customerIds)
    requires forall i :: 0 <= i < |customers| ==> customers[i].id == "" && customers[i].currentBalance.Some?
    ensures r.seeded <==> LooksEmpty(s)
    ensures !r.seeded ==> r.store == s
    ensures r.seeded ==>
              && r.store.users == s.users + users
              && r.store.products == products
              && |r.store.customers| == |customers|
              && (forall i :: 0 <= i < |customers| ==>
                    r.store.customers[i] == customers[i].(id := customerIds[i]))
              && r.store.sales == s.sales
  {
    if LooksEmpty(s) then
      var us := CreateUsers(s.users, users);
      var ps := SaveProducts(s.products, products);
      var cs := CreateCustomers(s.customers, customers, customerIds);
      SeedResult(Store(ps, us, s.sales, cs), true)
    else SeedResult(s, false)
  }

  /** `seedDatabase`: writes the demo data into an empty-looking store and
      reports whether it did. */
  function SeedDatabase(s: Store, ids: seq<Id>, draws: seq<real>): (r: SeedResult)
    requires |ids| == SeedIdCount && AllIdentified(ids) && ValidDraws(draws)
    ensures r.seeded <==> LooksEmpty(s)
    ensures !r.seeded ==> r.store == s
    ensures r.seeded ==>
              && r.store.users == s.users + SeedUsers(ids)
              && r.store.products == SeedProducts(ids, draws)
              && r.store.sales == s.sales
  {
    SeedCustomersReady();
    SeedWith(s, SeedUsers(ids), SeedProducts(ids, draws), SeedCustomers,
             ids[SeedUserCount + SeedProductCount..])
  }

  lemma SliceIdentified(ids: seq<Id>, k: nat)
    requires k <= |ids| && AllIdentified(ids)
    ensures AllIdentified(ids[k..])
  {
    assert forall i :: 0 <= i < |ids[k..]| ==> ids[k..][i] == ids[k + i];
  }

  /** Customer `i` receives the `i`-th id after the first `k`. */
  lemma SeedWithCustomerIds(s: Store, users: seq<User>, products: seq<Product>,
                            customers: seq<Customer>, ids: seq<Id>, k: nat)
    requires forall i :: 0 <= i < |users| ==> users[i].id != "" && users[i].fullName.Some?
    requires forall i :: 0 <= i < |products| ==> products[i].id != ""
    requires k <= |ids| && |ids| - k == |customers| && AllIdentified(ids[k..])
    requires forall i :: 0 <= i < |customers| ==> customers[i].id == "" && customers[i].currentBalance.Some?
    requires LooksEmpty(s)
    ensures var cs := SeedWith(s, users, products, customers, ids[k..]).store.customers;
            && |cs| == |customers|
            && forall i :: 0 <= i < |customers| ==> cs[i] == customers[i].(id := ids[k + i])
  {
    assert forall i :: 0 <= i < |ids[k..]| ==> ids[k..][i] == ids[k + i];
  }

  /** The five customers are stored in order, customer `i` under the
      `i`-th customer id drawn. */
  lemma SeededCustomersIdentified(s: Store, ids: seq<Id>, draws: seq<real>)
    requires |ids| == SeedIdCount && AllIdentified(ids) && ValidDraws(draws)
    requires LooksEmpty(s)
    ensures var cs := SeedDatabase(s, ids, draws).store.customers;
            && |cs| == SeedCustomerCount
            && forall i :: 0 <= i < SeedCustomerCount ==>
                 cs[i] == SeedCustomers[i].(id := ids[SeedUserCount + SeedProductCount + i])
  {
    SeedCustomersReady();
    SliceIdentified(ids, SeedUserCount + SeedProductCount);
    SeedWithCustomerIds(s, SeedUsers(ids), SeedProducts(ids, draws), SeedCustomers, ids,
                        SeedUserCount + SeedProductCount);
  }

  /** Seeding is a one-off: a seeded store no longer looks empty, so a
      second run writes nothing. */
  lemma SeedTwiceIsNoop(s: Store, ids1: seq<Id>, draws1: seq<real>, ids2: seq<Id>, draws2: seq<real>)
    requires |ids1| == SeedIdCount && AllIdentified(ids1) && ValidDraws(draws1)
    requires |ids2| == SeedIdCount && AllIdentified(ids2) && ValidDraws(draws2)
    ensures var once := SeedDatabase(s, ids1, draws1).store;
            var twice := SeedDatabase(once, ids2, draws2);
            !twice.seeded && twice.store == once
  {
  }

  /** Every seeded stock level lies in its catalogue range. */
  lemma SeededStockInRange(ids: seq<Id>, draws: seq<real>)
    requires |ids| == SeedIdCount && ValidDraws(draws)
    ensures forall i :: 0 <= i < SeedProductCount ==>
              Catalogue[i].minStock <= SeedProducts(ids, draws)[i].stock <= Catalogue[i].maxStock
  {
    forall i | 0 <= i < SeedProductCount
      ensures Catalogue[i].minStock <= SeedProducts(ids, draws)[i].stock <= Catalogue[i].maxStock
    {
      CatalogueRangesValid(i);
    }
  }

  lemma CatalogueRangesValid(i: nat)
    requires i < |Catalogue|
    ensures Catalogue[i].minStock <= Catalogue[i].maxStock
  {
  }

  /** Every seeded customer starts with a positive limit and a balance
      within it. */
  lemma SeededCustomersWithinLimit(s: Store, ids: seq<Id>, draws: seq<real>)
    requires |ids| == SeedIdCount && AllIdentified(ids) && ValidDraws(draws)
    requires LooksEmpty(s)
    ensures var cs := SeedDatabase(s, ids, draws).store.customers;
            forall i :: 0 <= i < |cs| ==>
              && cs[i].creditLimit.Some? && cs[i].creditLimit.value > 0.0
              && cs[i].currentBalance.Some?
              && 0.0 <= cs[i].currentBalance.value <= cs[i].creditLimit.value
  {
    var cs := SeedDatabase(s, ids, draws).store.customers;
    SeedCustomersReady();
    SeededCustomersIdentified(s, ids, draws);
    forall i | 0 <= i < |cs|
      ensures && cs[i].creditLimit.Some? && cs[i].creditLimit.value > 0.0
              && cs[i].currentBalance.Some?
              && 0.0 <= cs[i].currentBalance.value <= cs[i].creditLimit.value
    {
      assert cs[i] == SeedCustomers[i].(id := ids[SeedUserCount + SeedProductCount + i]);
    }
  }

  /** `clearDatabase`: products, customers and sales are emptied; the
      accounts stay so that someone can still log in. */
  function ClearDatabase(s: Store): (r: Store)
    ensures r.users == s.users
    ensures r.products == [] && r.customers == [] && r.sales == []
  {
    Store([], s.users, [], [])
  }

  /** After a reset the demo data goes in again exactly when at most one
      account exists. */
  lemma ClearThenSeed(s: Store, ids: seq<Id>, draws: seq<real>)
    requires |ids| == SeedIdCount && AllIdentified(ids) && ValidDraws(draws)
    ensures SeedDatabase(ClearDatabase(s), ids, draws).seeded <==> |s.users| <= 1
  {
  }
}
