/** The ledger repository: typed accessors over the store's four
    collections. Every operation reads a whole list and writes a whole list
    back, so each one is a pure list transformation here; the key-value
    store itself is replaced by the `Store` value. */
module Ledger {
  import opened Options
  import opened Seqs
  import opened Text
  import opened Money
  import opened Records

  /** What a create operation returns: the rewritten table and the record
      as stored. */
  datatype Created<T> = Created(table: seq<T>, record: T)

  /** `given || uuidv4()`: a provided identifier wins, otherwise a fresh
      one drawn from the identifier source. */
  function ChooseId(given: Id, newId: Id): Id {
    if given != "" then given else newId
  }

  /** No record of `table` carries identifier `id` (under `key`). */
  predicate IdAbsent<T>(table: seq<T>, key: T -> Id, id: Id) {
    forall i :: 0 <= i < |table| ==> key(table[i]) != id
  }

  // ---------------------------------------------------------------------
  // Store initialisation

  /** The store as found on start-up: a collection that was never written
      reads as `null`. */
  datatype RawStore = RawStore(
    products: Option<seq<Product>>,
    users: Option<seq<User>>,
    sales: Option<seq<Sale>>,
    customers: Option<seq<Customer>>)

  /** `table || []`. */
  function TableOrEmpty<T>(t: Option<seq<T>>): seq<T> {
    t.GetOr([])
  }

  function AsRaw(s: Store): RawStore {
    RawStore(Some(s.products), Some(s.users), Some(s.sales), Some(s.customers))
  }

  function DefaultAdmin(id: Id): User {
    User(id, "admin", Some("admin123"), OwnerRole, "1234", Some("Admin User"))
  }

  /** `initDB`: every null collection becomes `[]`, and a default owner
      account is created when there is no user at all. */
  function InitDB(raw: RawStore, newId: Id): (r: Store)
    requires newId != ""
    ensures raw.products.Some? ==> r.products == raw.products.value
    ensures raw.sales.Some? ==> r.sales == raw.sales.value
    ensures raw.customers.Some? ==> r.customers == raw.customers.value
    ensures raw.products.None? ==> r.products == []
    ensures raw.sales.None? ==> r.sales == []
    ensures raw.customers.None? ==> r.customers == []
    ensures raw.users.Some? && |raw.users.value| > 0 ==> r.users == raw.users.value
    ensures raw.users.None? || |raw.users.value| == 0 ==> r.users == [DefaultAdmin(newId)]
  {
    var users := TableOrEmpty(raw.users);
    Store(
      TableOrEmpty(raw.products),
      if |users| == 0 then CreateUser(users, DefaultAdmin(newId), newId).table else users,
      TableOrEmpty(raw.sales),
      TableOrEmpty(raw.customers))
  }

  /** Running the initialisation on an initialised store changes nothing. */
  lemma InitDBIdempotent(raw: RawStore, newId1: Id, newId2: Id)
    requires newId1 != "" && newId2 != ""
    ensures InitDB(AsRaw(InitDB(raw, newId1)), newId2) == InitDB(raw, newId1)
  {
  }

  // ---------------------------------------------------------------------
  // Products

  /** The fields an edit may carry; `None` leaves the stored field alone. */
  datatype ProductPatch = ProductPatch(
    name: Option<string>,
    description: Option<string>,
    price: Option<real>,
    cost: Option<real>,
    stock: Option<int>,
    category: Option<string>,
    barcode: Option<string>)

  /** `{ ...product, ...patch }`. */
  function MergeProduct(p: Product, d: ProductPatch): Product {
    Product(p.id, d.name.GetOr(p.name), d.description.GetOr(p.description),
            d.price.GetOr(p.price), d.cost.GetOr(p.cost), d.stock.GetOr(p.stock),
            d.category.GetOr(p.category), d.barcode.GetOr(p.barcode))
  }

  function ProductId(p: Product): Id { p.id }

  /** No two products share an id. */
  predicate UniqueProductIds(products: seq<Product>) {
    forall i, j :: 0 <= i < |products| && 0 <= j < |products| && products[i].id == products[j].id ==> i == j
  }

  /** `saveProduct`: append one product, keeping a provided id. */
  function SaveProduct(products: seq<Product>, p: Product, newId: Id): (r: Created<Product>)
    requires newId != ""
    ensures |r.table| == |products| + 1
    ensures r.table[..|products|] == products
    ensures r.table[|products|] == r.record
    ensures p.id != "" ==> r.record.id == p.id
    ensures p.id == "" ==> r.record.id == newId
    ensures r.record == p.(id := r.record.id)
  {
    var saved := p.(id := ChooseId(p.id, newId));
    Created(products + [saved], saved)
  }

  /** `updateProduct`: merge the patch into every product with that id. */
  function UpdateProduct(products: seq<Product>, productId: Id, d: ProductPatch): (r: seq<Product>)
    ensures |r| == |products|
    ensures forall i :: 0 <= i < |products| ==>
              r[i] == if products[i].id == productId then MergeProduct(products[i], d) else products[i]
  {
    UpdateWhere(products, (p: Product) => p.id == productId, (p: Product) => MergeProduct(p, d))
  }

  /** Applying the same edit twice is the same as applying it once, and an
      edit keeps every identifier in place. */
  lemma UpdateProductIdempotent(products: seq<Product>, productId: Id, d: ProductPatch)
    ensures UpdateProduct(UpdateProduct(products, productId, d), productId, d)
            == UpdateProduct(products, productId, d)
    ensures forall i :: 0 <= i < |products| ==> UpdateProduct(products, productId, d)[i].id == products[i].id
  {
    var once := UpdateProduct(products, productId, d);
    var twice := UpdateProduct(once, productId, d);
    assert forall i :: 0 <= i < |products| ==> twice[i] == once[i];
  }

  /** `deleteProduct`: drop every product with that id. */
  function DeleteProduct(products: seq<Product>, productId: Id): (r: seq<Product>)
    ensures forall p :: p in r <==> p in products && p.id != productId
    ensures forall p :: multiset(r)[p] == if p.id != productId then multiset(products)[p] else 0
    ensures IsSublist(r, products)
  {
    var keep := (p: Product) => p.id != productId;
    FilterCount(products, keep);
    Filter(products, keep)
  }

  /** Deleting an id that no product carries leaves the list as it was. */
  lemma DeleteProductAbsent(products: seq<Product>, productId: Id)
    requires IdAbsent(products, ProductId, productId)
    ensures DeleteProduct(products, productId) == products
  {
    FilterKeepsAll(products, (p: Product) => p.id != productId);
  }

  /** Deleting the product just saved under a fresh id restores the list. */
  lemma DeleteUndoesSave(products: seq<Product>, p: Product, newId: Id)
    requires newId != ""
    requires IdAbsent(products, ProductId, ChooseId(p.id, newId))
    ensures var c := SaveProduct(products, p, newId);
            DeleteProduct(c.table, c.record.id) == products
  {
    var c := SaveProduct(products, p, newId);
    var keep := (x: Product) => x.id != c.record.id;
    FilterAppend(products, [c.record], keep);
    FilterKeepsAll(products, keep);
    assert Filter([c.record], keep) == [];
  }

  function StockPatch(newStock: int): ProductPatch {
    ProductPatch(None, None, None, None, Some(newStock), None, None)
  }

  /** `updateProductStock`: only the `stock` field of the matching products
      changes. */
  function UpdateProductStock(products: seq<Product>, productId: Id, newStock: int): (r: seq<Product>)
    ensures |r| == |products|
    ensures forall i :: 0 <= i < |products| ==>
              r[i] == if products[i].id == productId then products[i].(stock := newStock) else products[i]
  {
    UpdateProduct(products, productId, StockPatch(newStock))
  }

  /** The search rule shared by `searchProducts` and the inventory screen:
      name or description contain the query ignoring case, or the barcode
      contains it exactly. */
  predicate MatchesProductSearch(p: Product, query: string) {
    || Contains(Lower(p.name), Lower(query))
    || (p.description != "" && Contains(Lower(p.description), Lower(query)))
    || (p.barcode != "" && Contains(p.barcode, query))
  }

  /** `searchProducts`. */
  function SearchProducts(products: seq<Product>, query: string): (r: seq<Product>)
    ensures forall p :: p in r <==> p in products && MatchesProductSearch(p, query)
    ensures forall p :: multiset(r)[p] == if MatchesProductSearch(p, query) then multiset(products)[p] else 0
    ensures IsSublist(r, products)
  {
    var keep := (p: Product) => MatchesProductSearch(p, query);
    FilterCount(products, keep);
    Filter(products, keep)
  }

  /** The empty query matches every product. */
  lemma SearchEmptyQuery(products: seq<Product>)
    ensures SearchProducts(products, "") == products
  {
    forall i | 0 <= i < |products|
      ensures MatchesProductSearch(products[i], "")
    {
      ContainsEmpty(Lower(products[i].name));
    }
    FilterKeepsAll(products, (p: Product) => MatchesProductSearch(p, ""));
  }

  const DefaultLowStockThreshold: int := 10

  /** `getLowStockProducts`: the products at or below the threshold. */
  function GetLowStockProducts(products: seq<Product>, threshold: int): (r: seq<Product>)
    ensures forall p :: p in r <==> p in products && p.stock <= threshold
    ensures forall p :: multiset(r)[p] == if p.stock <= threshold then multiset(products)[p] else 0
    ensures IsSublist(r, products)
  {
    var keep := (p: Product) => p.stock <= threshold;
    FilterCount(products, keep);
    Filter(products, keep)
  }

  // ---------------------------------------------------------------------
  // Users

  /** `createUser`: append one user; a missing full name becomes `""`. */
  function CreateUser(users: seq<User>, u: User, newId: Id): (r: Created<User>)
    requires newId != ""
    ensures |r.table| == |users| + 1
    ensures r.table[..|users|] == users
    ensures r.table[|users|] == r.record
    ensures u.id != "" ==> r.record.id == u.id
    ensures u.id == "" ==> r.record.id == newId
    ensures u.fullName.Some? ==> r.record.fullName == u.fullName
    ensures u.fullName.None? ==> r.record.fullName == Some("")
    ensures r.record == u.(id := r.record.id, fullName := r.record.fullName)
  {
    var saved := u.(id := ChooseId(u.id, newId), fullName := Some(u.fullName.GetOr("")));
    Created(users + [saved], saved)
  }

  // ---------------------------------------------------------------------
  // Sales

  /** `getSales`: a collection never written reads as empty. */
  function GetSales(table: Option<seq<Sale>>): (r: seq<Sale>)
    ensures table.None? ==> r == []
    ensures table.Some? ==> r == table.value
  {
    TableOrEmpty(table)
  }

  /** `createSale`: append one sale, keeping a provided id. */
  function CreateSale(sales: seq<Sale>, s: Sale, newId: Id): (r: Created<Sale>)
    requires newId != ""
    ensures |r.table| == |sales| + 1
    ensures r.table[..|sales|] == sales
    ensures r.table[|sales|] == r.record
    ensures s.id != "" ==> r.record.id == s.id
    ensures s.id == "" ==> r.record.id == newId
    ensures r.record == s.(id := r.record.id)
  {
    var saved := s.(id := ChooseId(s.id, newId));
    Created(sales + [saved], saved)
  }

  /** `getSalesByUserId`. */
  function GetSalesByUserId(sales: seq<Sale>, userId: Id): (r: seq<Sale>)
    ensures forall s :: s in r <==> s in sales && s.userId == userId
    ensures forall s :: multiset(r)[s] == if s.userId == userId then multiset(sales)[s] else 0
    ensures IsSublist(r, sales)
  {
    var keep := (s: Sale) => s.userId == userId;
    FilterCount(sales, keep);
    Filter(sales, keep)
  }

  /** `getSalesByDateRange`: both bounds are inclusive. */
  function GetSalesByDateRange(sales: seq<Sale>, start: int, end: int): (r: seq<Sale>)
    ensures forall s :: s in r <==> s in sales && start <= s.timestamp <= end
    ensures forall s :: multiset(r)[s] == if start <= s.timestamp <= end then multiset(sales)[s] else 0
    ensures IsSublist(r, sales)
  {
    var keep := (s: Sale) => start <= s.timestamp && s.timestamp <= end;
    FilterCount(sales, keep);
    Filter(sales, keep)
  }

  // ---------------------------------------------------------------------
  // Customers

  /** `getCustomers`: a collection never written reads as empty. */
  function GetCustomers(table: Option<seq<Customer>>): (r: seq<Customer>)
    ensures table.None? ==> r == []
    ensures table.Some? ==> r == table.value
  {
    TableOrEmpty(table)
  }

  function CustomerId(c: Customer): Id { c.id }

  /** `createCustomer`: append one customer; a missing balance becomes 0. */
  function CreateCustomer(customers: seq<Customer>, c: Customer, newId: Id): (r: Created<Customer>)
    requires newId != ""
    ensures |r.table| == |customers| + 1
    ensures r.table[..|customers|] == customers
    ensures r.table[|customers|] == r.record
    ensures c.id != "" ==> r.record.id == c.id
    ensures c.id == "" ==> r.record.id == newId
    ensures c.currentBalance.Some? ==> r.record.currentBalance == c.currentBalance
    ensures c.currentBalance.None? ==> r.record.currentBalance == Some(0.0)
    ensures r.record == c.(id := r.record.id, currentBalance := r.record.currentBalance)
  {
    var saved := c.(id := ChooseId(c.id, newId), currentBalance := Some(BalanceOrZero(c)));
    Created(customers + [saved], saved)
  }

  /** The fields a customer edit may carry; `None` leaves the field alone. */
  datatype CustomerPatch = CustomerPatch(
    name: Option<string>,
    phone: Option<string>,
    email: Option<string>,
    address: Option<string>,
    creditLimit: Option<real>,
    currentBalance: Option<real>)

  /** `{ ...customer, ...patch }`. */
  function MergeCustomer(c: Customer, d: CustomerPatch): Customer {
    Customer(c.id, d.name.GetOr(c.name), d.phone.GetOr(c.phone), d.email.GetOr(c.email),
             d.address.GetOr(c.address),
             if d.creditLimit.Some? then d.creditLimit else c.creditLimit,
             if d.currentBalance.Some? then d.currentBalance else c.currentBalance)
  }

  /** `updateCustomer`: merge the patch into every customer with that id. */
  function UpdateCustomer(customers: seq<Customer>, customerId: Id, d: CustomerPatch): (r: seq<Customer>)
    ensures |r| == |customers|
    ensures forall i :: 0 <= i < |customers| ==>
              r[i] == if customers[i].id == customerId then MergeCustomer(customers[i], d) else customers[i]
  {
    UpdateWhere(customers, (c: Customer) => c.id == customerId, (c: Customer) => MergeCustomer(c, d))
  }

  /** Applying the same customer update twice leaves what applying it once
      left, and no customer's id changes. */
  lemma UpdateCustomerIdempotent(customers: seq<Customer>, customerId: Id, d: CustomerPatch)
    ensures UpdateCustomer(UpdateCustomer(customers, customerId, d), customerId, d)
            == UpdateCustomer(customers, customerId, d)
    ensures forall i :: 0 <= i < |customers| ==> UpdateCustomer(customers, customerId, d)[i].id == customers[i].id
  {
    var once := UpdateCustomer(customers, customerId, d);
    var twice := UpdateCustomer(once, customerId, d);
    assert forall i :: 0 <= i < |customers| ==> twice[i] == once[i];
  }

  /** `deleteCustomer`: drop every customer with that id. */
  function DeleteCustomer(customers: seq<Customer>, customerId: Id): (r: seq<Customer>)
    ensures forall c :: c in r <==> c in customers && c.id != customerId
    ensures forall c :: multiset(r)[c] == if c.id != customerId then multiset(customers)[c] else 0
    ensures IsSublist(r, customers)
  {
    var keep := (c: Customer) => c.id != customerId;
    FilterCount(customers, keep);
    Filter(customers, keep)
  }

  /** Deleting the customer just created under a newId id restores the list. */
  lemma DeleteUndoesCreateCustomer(customers: seq<Customer>, c: Customer, newId: Id)
    requires newId != ""
    requires IdAbsent(customers, CustomerId, ChooseId(c.id, newId))
    ensures var k := CreateCustomer(customers, c, newId);
            DeleteCustomer(k.table, k.record.id) == customers
  {
    var k := CreateCustomer(customers, c, newId);
    var keep := (x: Customer) => x.id != k.record.id;
    FilterAppend(customers, [k.record], keep);
    FilterKeepsAll(customers, keep);
    assert Filter([k.record], keep) == [];
  }

  function BalancePatch(newBalance: real): CustomerPatch {
    CustomerPatch(None, None, None, None, None, Some(Round2(newBalance)))
  }

  /** `updateCustomerBalance`: store the balance rounded to cents; nothing
      else changes. */
  function UpdateCustomerBalance(customers: seq<Customer>, customerId: Id, newBalance: real): (r: seq<Customer>)
    ensures |r| == |customers|
    ensures forall i :: 0 <= i < |customers| ==>
              r[i] == if customers[i].id == customerId
                      then customers[i].(currentBalance := Some(Round2(newBalance)))
                      else customers[i]
  {
    UpdateCustomer(customers, customerId, BalancePatch(newBalance))
  }

  /** A balance written by `updateCustomerBalance` is a whole number of
      cents, whatever amount was asked for. */
  lemma StoredBalanceInCents(customers: seq<Customer>, customerId: Id, newBalance: real)
    ensures forall i :: 0 <= i < |customers| && customers[i].id == customerId ==>
              IsCents(BalanceOrZero(UpdateCustomerBalance(customers, customerId, newBalance)[i]))
  {
  }

  /** `getCustomerById`: the first customer with that id, if any. */
  function GetCustomerById(customers: seq<Customer>, customerId: Id): (r: Option<Customer>)
    ensures r.Some? <==> exists i :: 0 <= i < |customers| && customers[i].id == customerId
    ensures r.Some? ==> r.value.id == customerId
    ensures r.Some? ==> exists i :: 0 <= i < |customers| && customers[i] == r.value
                                    && forall j :: 0 <= j < i ==> customers[j].id != customerId
  {
    if |customers| == 0 then None
    else if customers[0].id == customerId then Some(customers[0])
    else
      var r := GetCustomerById(customers[1..], customerId);
      assert forall i :: 1 <= i < |customers| ==> customers[i] == customers[1..][i - 1];
      if r.Some? then
        var k :| 0 <= k < |customers[1..]| && customers[1..][k] == r.value
                 && forall j :: 0 <= j < k ==> customers[1..][j].id != customerId;
        assert customers[k + 1] == r.value;
        r
      else r
  }

  // ---------------------------------------------------------------------
  // Dashboard figures

  datatype Stats = Stats(totalSales: real, todaySales: real, totalProducts: nat, totalCustomers: nat)

  function SaleTotal(s: Sale): real { s.total }

  /** The sales whose timestamp falls on the current day; which day that is
      depends on the clock and time zone, so the test is a parameter. */
  function SalesOfToday(sales: seq<Sale>, isToday: int -> bool): seq<Sale> {
    Filter(sales, (s: Sale) => isToday(s.timestamp))
  }

  /** `getDashboardStats`. */
  function GetDashboardStats(store: Store, isToday: int -> bool): Stats {
    Stats(Round2(SumOf(store.sales, SaleTotal)),
          Round2(SumOf(SalesOfToday(store.sales, isToday), SaleTotal)),
          |store.products|, |store.customers|)
  }

  /** With no negative sale totals, today's takings never exceed the
      all-time takings, and neither is negative. */
  lemma TodayWithinTotal(store: Store, isToday: int -> bool)
    requires forall i :: 0 <= i < |store.sales| ==> store.sales[i].total >= 0.0
    ensures var st := GetDashboardStats(store, isToday);
            0.0 <= st.todaySales <= st.totalSales
  {
    SumOfFilterAtMost(store.sales, (s: Sale) => isToday(s.timestamp), SaleTotal);
    Round2Monotone(SumOf(SalesOfToday(store.sales, isToday), SaleTotal), SumOf(store.sales, SaleTotal));
  }
}
