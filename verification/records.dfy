/** The records the shop keeps, one datatype per collection of the store.
    Optional text fields (`description`, `phone`, …) are strings in which
    `""` stands for a missing value: JavaScript treats both as falsy, and
    every rule of the shop only asks whether the field is truthy. */
module Records {
  import opened Options

  /** Record identifiers (uuid strings); `""` means "none provided". */
  type Id = string

  datatype Product = Product(
    id: Id,
    name: string,
    description: string,
    price: real,
    cost: real,
    stock: int,
    category: string,
    barcode: string)

  /** `password` is absent on a logged-in session copy; `fullName` may be
      missing on a record written around `createUser`. */
  datatype User = User(
    id: Id,
    username: string,
    password: Option<string>,
    role: string,
    pin: string,
    fullName: Option<string>)

  /** The store is untyped, so a customer's limit and balance may be
      missing; the rules read a missing balance as 0. */
  datatype Customer = Customer(
    id: Id,
    name: string,
    phone: string,
    email: string,
    address: string,
    creditLimit: Option<real>,
    currentBalance: Option<real>)

  datatype Payment = Cash | Credit

  /** One line of a persisted sale: a snapshot of the product at sale time. */
  datatype SaleItem = SaleItem(productId: Id, name: string, price: real, quantity: nat)

  /** `timestamp` is milliseconds since the epoch. `customerId` is absent
      for a cash sale. */
  datatype Sale = Sale(
    id: Id,
    timestamp: int,
    items: seq<SaleItem>,
    subtotal: real,
    tax: real,
    total: real,
    paymentMethod: Payment,
    customerId: Option<Id>,
    userId: Id)

  /** The four collections of the key-value store. */
  datatype Store = Store(
    products: seq<Product>,
    users: seq<User>,
    sales: seq<Sale>,
    customers: seq<Customer>)

  const OwnerRole: string := "owner"

  /** `newBalance > customer.creditLimit`: a missing limit compares false,
      so a customer without a limit is never over it. */
  predicate ExceedsLimit(newBalance: real, limit: Option<real>) {
    limit.Some? && newBalance > limit.value
  }

  /** `customer.currentBalance || 0`. */
  function BalanceOrZero(c: Customer): real {
    c.currentBalance.GetOr(0.0)
  }
}
