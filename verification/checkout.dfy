/** The checkout screen: the cart, its totals, and `completeSale`, which
    turns a cart into a persisted sale, charges a credit customer and takes
    the sold quantities off the shelf stock.

    The commit is modelled as it is written, not as an idealised
    validate-then-write transaction: the sale is appended first, and a
    missing customer, a credit-limit breach or a short stock line stops the
    sequence part-way, after the sale (and possibly some stock decrements)
    have already been written. */
module Checkout {
  import opened Options
  import opened Seqs
  import opened Money
  import opened Records
  import opened Ledger

  /** A cart line: a copy of the product as it was when added (so its
      `price` is the add-time price) and a quantity. */
  datatype CartLine = CartLine(product: Product, quantity: nat)

  /** The flat sales-tax rate applied to the subtotal. */
  const TaxRate: real := 0.1

  /** `addToCart`: always a new line with quantity 1; lines for the same
      product are not merged. */
  function AddToCart(cart: seq<CartLine>, p: Product): (r: seq<CartLine>)
    ensures |r| == |cart| + 1
    ensures r[..|cart|] == cart
    ensures r[|cart|] == CartLine(p, 1)
  {
    cart + [CartLine(p, 1)]
  }

  function LineAmount(l: CartLine): real {
    l.product.price * l.quantity as real
  }

  /** Sum of price times quantity over the cart, unrounded. */
  function CartSubtotal(cart: seq<CartLine>): real {
    SumOf(cart, LineAmount)
  }

  /** `calculateChange`: tendered amount minus the untaxed cart sum. */
  function CalculateChange(cart: seq<CartLine>, tendered: real): (r: real)
    ensures r + CartSubtotal(cart) == tendered
  {
    tendered - CartSubtotal(cart)
  }

  /** Each added line lowers the change by the product's price; tax is
      never part of the change. */
  lemma ChangeAfterAdd(cart: seq<CartLine>, p: Product, tendered: real)
    ensures CalculateChange(AddToCart(cart, p), tendered) == CalculateChange(cart, tendered) - p.price
  {
    SumOfAppend(cart, [CartLine(p, 1)], LineAmount);
  }

  datatype Totals = Totals(subtotal: real, tax: real, total: real)

  /** The exact (unrounded) subtotal, tax and total of a cart. */
  function CartTotals(cart: seq<CartLine>): Totals {
    var subtotal := CartSubtotal(cart);
    Totals(subtotal, subtotal * TaxRate, subtotal + subtotal * TaxRate)
  }

  /** With non-negative prices every total is non-negative and the total
      is the subtotal plus ten percent. */
  lemma {:induction false} TotalsNonNegative(cart: seq<CartLine>)
    requires forall i :: 0 <= i < |cart| ==> cart[i].product.price >= 0.0
    ensures 0.0 <= CartTotals(cart).subtotal <= CartTotals(cart).total
    ensures CartTotals(cart).total == CartSubtotal(cart) * 1.1
    decreases |cart|
  {
    if |cart| > 0 {
      TotalsNonNegative(cart[1..]);
    }
  }

  function SaleItemOf(l: CartLine): SaleItem {
    SaleItem(l.product.id, l.product.name, l.product.price, l.quantity)
  }

  /** `paymentMethod === 'credit' ? selectedCustomer?.id : null`. */
  function CustomerIdFor(payment: Payment, selected: Option<Customer>): Option<Id> {
    if payment == Credit && selected.Some? then Some(selected.value.id) else None
  }

  /** The sale record `completeSale` builds from the cart. */
  function BuildSale(cart: seq<CartLine>, payment: Payment, selected: Option<Customer>,
                     user: User, saleId: Id, now: int): (s: Sale)
    ensures s.id == saleId && s.timestamp == now && s.userId == user.id && s.paymentMethod == payment
    ensures |s.items| == |cart|
    ensures forall i :: 0 <= i < |cart| ==>
              s.items[i] == SaleItem(cart[i].product.id, cart[i].product.name,
                                     cart[i].product.price, cart[i].quantity)
    ensures s.subtotal == Round2(CartSubtotal(cart))
    ensures s.tax == Round2(CartSubtotal(cart) * TaxRate)
    ensures s.total == Round2(CartSubtotal(cart) * 1.1)
    ensures payment == Cash ==> s.customerId == None
    ensures payment == Credit && selected.Some? ==> s.customerId == Some(selected.value.id)
    ensures payment == Credit && selected.None? ==> s.customerId == None
  {
    var t := CartTotals(cart);
    Sale(saleId, now, seq(|cart|, i requires 0 <= i < |cart| => SaleItemOf(cart[i])),
         Round2(t.subtotal), Round2(t.tax), Round2(t.total),
         payment, CustomerIdFor(payment, selected), user.id)
  }

  /** The amounts stored on a sale are whole cents, so reading a sale back
      and rounding again reproduces them exactly. */
  lemma SaleAmountsStable(cart: seq<CartLine>, payment: Payment, selected: Option<Customer>,
                          user: User, saleId: Id, now: int)
    ensures var s := BuildSale(cart, payment, selected, user, saleId, now);
            Round2(s.subtotal) == s.subtotal && Round2(s.tax) == s.tax && Round2(s.total) == s.total
  {
    var s := BuildSale(cart, payment, selected, user, saleId, now);
    Round2OfCents(s.subtotal);
    Round2OfCents(s.tax);
    Round2OfCents(s.total);
  }

  // ---------------------------------------------------------------------
  // The credit stage

  datatype Charge =
    | NoCustomerSelected
    | OverLimit(balance: Option<real>, limit: Option<real>)
    | Charged(customers: seq<Customer>)

  /** The credit stage of `completeSale`: re-read the selected customer,
      refuse a balance strictly above the limit, otherwise store the new
      balance. A selected customer no longer in the store is not charged and
      is not an error. */
  function ChargeCredit(customers: seq<Customer>, selected: Option<Customer>, total: real): (r: Charge)
    ensures selected.None? <==> r.NoCustomerSelected?
    ensures selected.Some? && GetCustomerById(customers, selected.value.id).None? ==>
              r == Charged(customers)
    ensures selected.Some? && GetCustomerById(customers, selected.value.id).Some? ==>
              var c := GetCustomerById(customers, selected.value.id).value;
              && (r.OverLimit? <==> ExceedsLimit(BalanceOrZero(c) + total, c.creditLimit))
              && (r.OverLimit? ==> r == OverLimit(c.currentBalance, c.creditLimit))
              && (r.Charged? ==>
                    && |r.customers| == |customers|
                    && forall i :: 0 <= i < |customers| ==>
                         r.customers[i] == if customers[i].id == c.id
                                           then customers[i].(currentBalance := Some(Round2(BalanceOrZero(c) + total)))
                                           else customers[i])
              && (r.Charged? && c.creditLimit.Some? && IsCents(c.creditLimit.value) ==>
                    Round2(BalanceOrZero(c) + total) <= c.creditLimit.value)
  {
    if selected.None? then NoCustomerSelected
    else
      match GetCustomerById(customers, selected.value.id)
      case None => Charged(customers)
      case Some(c) =>
        var newBalance := BalanceOrZero(c) + total;
        if ExceedsLimit(newBalance, c.creditLimit) then OverLimit(c.currentBalance, c.creditLimit)
        else
          assert c.creditLimit.Some? && IsCents(c.creditLimit.value) ==> Round2(newBalance) <= c.creditLimit.value by {
            if c.creditLimit.Some? && IsCents(c.creditLimit.value) {
              Round2AtMostCents(newBalance, c.creditLimit.value);
            }
          }
          Charged(UpdateCustomerBalance(customers, selected.value.id, newBalance))
  }

  /** The limit check is strict: a sale that brings the balance exactly to
      the limit goes through. */
  lemma ChargeUpToLimitAllowed(customers: seq<Customer>, c: Customer, total: real)
    requires GetCustomerById(customers, c.id).Some?
    requires var found := GetCustomerById(customers, c.id).value;
             found.creditLimit.Some? && BalanceOrZero(found) + total == found.creditLimit.value
    ensures ChargeCredit(customers, Some(c), total).Charged?
  {
  }

  // ---------------------------------------------------------------------
  // The stock stage

  /** `products.find(p => p.id === id)`: the first product with that id. */
  function FindProduct(products: seq<Product>, id: Id): (r: Option<Product>)
    ensures r.Some? <==> exists i :: 0 <= i < |products| && products[i].id == id
    ensures r.Some? ==> r.value.id == id && r.value in products
    ensures r.Some? ==> exists i :: 0 <= i < |products| && products[i] == r.value
                                    && forall j :: 0 <= j < i ==> products[j].id != id
  {
    if |products| == 0 then None
    else if products[0].id == id then Some(products[0])
    else
      var r := FindProduct(products[1..], id);
      assert forall k :: 1 <= k < |products| ==> products[k] == products[1..][k - 1];
      assert r.Some? ==> exists i :: 0 <= i < |products| && products[i] == r.value
                                     && forall j :: 0 <= j < i ==> products[j].id != id by {
        if r.Some? {
          var i :| 0 <= i < |products[1..]| && products[1..][i] == r.value
                   && forall j :: 0 <= j < i ==> products[1..][j].id != id;
          assert products[i + 1] == r.value;
        }
      }
      r
  }

  /** A line passes the stock check: its product is gone (the line is then
      skipped) or has at least the line's quantity on hand. */
  predicate LineFits(products: seq<Product>, line: CartLine) {
    var found := FindProduct(products, line.product.id);
    found.None? || found.value.stock - line.quantity >= 0
  }

  /** One iteration of the stock loop when it does not stop: write the
      found product's stock minus the quantity onto every product with that
      id; a line whose product is gone changes nothing. */
  function ApplyLine(products: seq<Product>, line: CartLine): seq<Product> {
    var found := FindProduct(products, line.product.id);
    if found.Some? && found.value.stock - line.quantity < 0 then products
    else WriteFound(products, line, found)
  }

  /** The write of a passing line: the found product's stock minus the
      quantity, or nothing when the product is gone. */
  function WriteFound(products: seq<Product>, line: CartLine, found: Option<Product>): seq<Product> {
    if found.Some?
    then UpdateProductStock(products, line.product.id, found.value.stock - line.quantity)
    else products
  }

  /** The products after the loop has processed `lines` in order, each
      iteration reading the products the previous one wrote. */
  function ApplyLines(products: seq<Product>, lines: seq<CartLine>): seq<Product>
    decreases |lines|
  {
    if |lines| == 0 then products
    else ApplyLine(ApplyLines(products, lines[..|lines| - 1]), lines[|lines| - 1])
  }

  /** Every line of `lines` passes its check at the moment the loop reaches it. */
  predicate AllLinesFit(products: seq<Product>, lines: seq<CartLine>)
    decreases |lines|
  {
    |lines| == 0 ||
    (AllLinesFit(products, lines[..|lines| - 1])
     && LineFits(ApplyLines(products, lines[..|lines| - 1]), lines[|lines| - 1]))
  }

  /** Total quantity the lines ask of the product with identifier `id`. */
  function QtyFor(lines: seq<CartLine>, id: Id): int
    decreases |lines|
  {
    if |lines| == 0 then 0
    else QtyFor(lines[..|lines| - 1], id)
         + (if lines[|lines| - 1].product.id == id then lines[|lines| - 1].quantity else 0)
  }

  /** The loop only ever rewrites `stock`: length, order and every other
      field of every product are kept. */
  lemma {:induction false} ApplyLinesOnlyStock(products: seq<Product>, lines: seq<CartLine>)
    ensures |ApplyLines(products, lines)| == |products|
    ensures forall i :: 0 <= i < |products| ==>
              ApplyLines(products, lines)[i] == products[i].(stock := ApplyLines(products, lines)[i].stock)
    decreases |lines|
  {
    if |lines| > 0 {
      var mid := ApplyLines(products, lines[..|lines| - 1]);
      ApplyLinesOnlyStock(products, lines[..|lines| - 1]);
      ApplyLineOnlyStock(mid, lines[|lines| - 1]);
    }
  }

  /** One iteration rewrites at most the `stock` field. */
  lemma ApplyLineOnlyStock(products: seq<Product>, line: CartLine)
    ensures |ApplyLine(products, line)| == |products|
    ensures forall i :: 0 <= i < |products| ==>
              ApplyLine(products, line)[i] == products[i].(stock := ApplyLine(products, line)[i].stock)
  {
  }

  /** Stock never goes negative through the loop: a line that would make it
      negative is never applied. */
  lemma {:induction false} ApplyLinesKeepsStockNonNegative(products: seq<Product>, lines: seq<CartLine>)
    requires forall i :: 0 <= i < |products| ==> products[i].stock >= 0
    ensures forall i :: 0 <= i < |ApplyLines(products, lines)| ==> ApplyLines(products, lines)[i].stock >= 0
    decreases |lines|
  {
    if |lines| > 0 {
      ApplyLinesKeepsStockNonNegative(products, lines[..|lines| - 1]);
    }
  }

  /** When product ids are unique and every line passes, each product ends
      with its stock lowered by the total quantity of all lines naming it:
      a product on several lines is decremented cumulatively, and lines
      whose product is gone are skipped. */
  lemma {:induction false} CumulativeDecrement(products: seq<Product>, lines: seq<CartLine>)
    requires UniqueProductIds(products)
    requires AllLinesFit(products, lines)
    ensures |ApplyLines(products, lines)| == |products|
    ensures forall i :: 0 <= i < |products| ==>
              ApplyLines(products, lines)[i] == products[i].(stock := products[i].stock - QtyFor(lines, products[i].id))
    decreases |lines|
  {
    if |lines| > 0 {
      var init := lines[..|lines| - 1];
      var l := lines[|lines| - 1];
      CumulativeDecrement(products, init);
      var mid := ApplyLines(products, init);
      assert forall i :: 0 <= i < |products| ==> mid[i].id == products[i].id;
      ApplyLineUnique(mid, l);
      forall i | 0 <= i < |products|
        ensures ApplyLines(products, lines)[i]
                == products[i].(stock := products[i].stock - QtyFor(lines, products[i].id))
      {
        assert QtyFor(lines, products[i].id)
               == QtyFor(init, products[i].id) + (if l.product.id == products[i].id then l.quantity else 0);
      }
    }
  }

  /** With unique ids, a passing line lowers exactly its own product. */
  lemma ApplyLineUnique(products: seq<Product>, line: CartLine)
    requires UniqueProductIds(products)
    requires LineFits(products, line)
    ensures |ApplyLine(products, line)| == |products|
    ensures forall i :: 0 <= i < |products| ==>
              ApplyLine(products, line)[i]
              == products[i].(stock := products[i].stock
                                       - (if products[i].id == line.product.id then line.quantity else 0))
  {
    var found := FindProduct(products, line.product.id);
    if found.Some? {
      var k :| 0 <= k < |products| && products[k] == found.value;
      forall i | 0 <= i < |products| && products[i].id == line.product.id
        ensures products[i] == found.value
      {
        assert i == k;
      }
    }
  }

  // ---------------------------------------------------------------------
  // The commit

  /** The checkout screen's state. */
  datatype PosState = PosState(
    cart: seq<CartLine>,
    tendered: real,
    paymentMethod: Payment,
    selectedCustomer: Option<Customer>,
    searchTerm: string)

  /** The state the screen returns to after a completed sale. */
  const IdlePos: PosState := PosState([], 0.0, Cash, None, "")

  datatype SaleError =
    | NoCustomer
    | CreditLimitExceeded(balance: Option<real>, limit: Option<real>)
    | InsufficientStock(line: nat, productName: string, available: int)

  datatype Outcome =
    | CartEmpty
    | Completed(sale: Sale)
    | Failed(sale: Sale, error: SaleError)

  datatype CheckoutResult = CheckoutResult(store: Store, pos: PosState, outcome: Outcome)

  /** The credit stage did not stop the sale: a cash sale, or a charge
      that went through. */
  predicate ChargePasses(store: Store, pos: PosState) {
    pos.paymentMethod == Cash
    || ChargeCredit(store.customers, pos.selectedCustomer, CartTotals(pos.cart).total).Charged?
  }

  /** The customers after the credit stage, when it passes. */
  function CustomersAfterCharge(store: Store, pos: PosState): seq<Customer> {
    if pos.paymentMethod == Cash then store.customers
    else
      match ChargeCredit(store.customers, pos.selectedCustomer, CartTotals(pos.cart).total)
      case Charged(cs) => cs
      case _ => store.customers
  }

  /** A prefix of lines that all pass is still all passing. */
  lemma {:induction false} AllLinesFitPrefix(products: seq<Product>, lines: seq<CartLine>, k: nat)
    requires k <= |lines|
    requires AllLinesFit(products, lines)
    ensures AllLinesFit(products, lines[..k])
    decreases |lines|
  {
    if k < |lines| {
      assert lines[..|lines| - 1][..k] == lines[..k];
      AllLinesFitPrefix(products, lines[..|lines| - 1], k);
    } else {
      assert lines[..k] == lines;
    }
  }

  /** One more line of the loop: the prefix grows by that line. */
  lemma NextLine(products: seq<Product>, cart: seq<CartLine>, i: nat)
    requires i < |cart|
    ensures ApplyLines(products, cart[..i + 1]) == ApplyLine(ApplyLines(products, cart[..i]), cart[i])
    ensures AllLinesFit(products, cart[..i + 1])
            == (AllLinesFit(products, cart[..i]) && LineFits(ApplyLines(products, cart[..i]), cart[i]))
  {
    assert cart[..i + 1][..i] == cart[..i];
  }

  /** One passing iteration of the stock loop extends the processed prefix
      by one line: what it writes is what the loop is specified to leave,
      and the prefix still passes. */
  lemma PassingLineStep(products: seq<Product>, cart: seq<CartLine>, i: nat,
                        found: Option<Product>, next: seq<Product>)
    requires i < |cart|
    requires AllLinesFit(products, cart[..i])
    requires found == FindProduct(ApplyLines(products, cart[..i]), cart[i].product.id)
    requires !(found.Some? && found.value.stock - cart[i].quantity < 0)
    requires next == WriteFound(ApplyLines(products, cart[..i]), cart[i], found)
    ensures next == ApplyLines(products, cart[..i + 1])
    ensures AllLinesFit(products, cart[..i + 1])
  {
    NextLine(products, cart, i);
  }

  /** A line that fails its check when the loop reaches it means the whole
      cart does not pass. */
  /** Which carts the stock stage lets through: with unique ids and no
      negative stock, every line fits in turn exactly when no product is
      asked for more units, over the whole cart, than it has. */
  lemma {:induction false} StockSufficesExactly(products: seq<Product>, cart: seq<CartLine>)
    requires UniqueProductIds(products)
    requires forall i :: 0 <= i < |products| ==> products[i].stock >= 0
    ensures AllLinesFit(products, cart)
            <==> forall i :: 0 <= i < |products| ==> QtyFor(cart, products[i].id) <= products[i].stock
    decreases |cart|
  {
    if AllLinesFit(products, cart) {
      CumulativeDecrement(products, cart);
      ApplyLinesKeepsStockNonNegative(products, cart);
    }
    if |cart| > 0 && forall i :: 0 <= i < |products| ==> QtyFor(cart, products[i].id) <= products[i].stock {
      var pre := cart[..|cart| - 1];
      var last := cart[|cart| - 1];
      assert forall i :: 0 <= i < |products| ==> QtyFor(pre, products[i].id) <= QtyFor(cart, products[i].id);
      StockSufficesExactly(products, pre);
      CumulativeDecrement(products, pre);
      var mid := ApplyLines(products, pre);
      var found := FindProduct(mid, last.product.id);
      if found.Some? {
        var i :| 0 <= i < |mid| && mid[i] == found.value;
        assert products[i].id == last.product.id;
        assert QtyFor(cart, products[i].id) == QtyFor(pre, products[i].id) + last.quantity;
      }
      assert LineFits(mid, last);
    }
  }

  lemma ShortLineBreaksAll(products: seq<Product>, cart: seq<CartLine>, i: nat)
    requires i < |cart|
    requires !LineFits(ApplyLines(products, cart[..i]), cart[i])
    ensures !AllLinesFit(products, cart)
  {
    NextLine(products, cart, i);
    if AllLinesFit(products, cart) {
      AllLinesFitPrefix(products, cart, i + 1);
    }
  }

  /** How the stock loop ended. */
  datatype StockRun =
    | AllDeducted(products: seq<Product>)
    | StoppedAt(products: seq<Product>, line: nat, product: Product)

  /** The stock loop of `completeSale`: lines in order, re-reading the
      products on every iteration, stopping at the first line that would
      drive a stock negative. Decrements already written stay written. */
  method DeductStock(products: seq<Product>, cart: seq<CartLine>) returns (run: StockRun)
    ensures run.AllDeducted? <==> AllLinesFit(products, cart)
    ensures run.AllDeducted? ==> run.products == ApplyLines(products, cart)
    ensures run.StoppedAt? ==>
              && run.line < |cart|
              && AllLinesFit(products, cart[..run.line])
              && run.products == ApplyLines(products, cart[..run.line])
              && FindProduct(run.products, cart[run.line].product.id) == Some(run.product)
              && run.product.stock - cart[run.line].quantity < 0
  {
    var current := products;
    var i := 0;
    while i < |cart|
      invariant 0 <= i <= |cart|
      invariant current == ApplyLines(products, cart[..i])
      invariant AllLinesFit(products, cart[..i])
    {
      var line := cart[i];
      var found := FindProduct(current, line.product.id);
      if found.Some? && found.value.stock - line.quantity < 0 {
        ShortLineBreaksAll(products, cart, i);
        return StoppedAt(current, i, found.value);
      }
      current := WriteFound(current, line, found);
      PassingLineStep(products, cart, i, found, current);
      i := i + 1;
    }
    assert cart[..i] == cart;
    return AllDeducted(current);
  }

  /** `completeSale`. `saleId` and `now` are the fresh identifier and the
      clock reading it draws; `user` is the logged-in operator. */
  method CompleteSale(store: Store, pos: PosState, user: User, saleId: Id, now: int)
    returns (r: CheckoutResult)
    requires saleId != ""
    // An empty cart is refused before anything is written.
    ensures |pos.cart| == 0 ==> r == CheckoutResult(store, pos, CartEmpty)
    // Otherwise exactly one sale is appended, whatever happens next.
    ensures |pos.cart| > 0 ==>
              && !r.outcome.CartEmpty?
              && r.outcome.sale == BuildSale(pos.cart, pos.paymentMethod, pos.selectedCustomer, user, saleId, now)
              && r.store.sales == store.sales + [r.outcome.sale]
    ensures r.store.users == store.users
    // The screen is reset only after full success.
    ensures r.outcome.Completed? ==> r.pos == IdlePos
    ensures !r.outcome.Completed? ==> r.pos == pos
    // The credit stage.
    ensures |pos.cart| > 0 && pos.paymentMethod == Credit && pos.selectedCustomer.None? ==>
              r.outcome.Failed? && r.outcome.error == NoCustomer
              && r.store.products == store.products && r.store.customers == store.customers
    ensures |pos.cart| > 0 && pos.paymentMethod == Credit ==>
              var charge := ChargeCredit(store.customers, pos.selectedCustomer, CartTotals(pos.cart).total);
              charge.OverLimit? ==>
                r.outcome.Failed? && r.outcome.error == CreditLimitExceeded(charge.balance, charge.limit)
                && r.store.products == store.products && r.store.customers == store.customers
    // The stock stage, reached when the credit stage passes.
    ensures |pos.cart| > 0 && ChargePasses(store, pos) ==>
              && r.store.customers == CustomersAfterCharge(store, pos)
              && (r.outcome.Completed? <==> AllLinesFit(store.products, pos.cart))
              && (r.outcome.Completed? ==> r.store.products == ApplyLines(store.products, pos.cart))
              && (r.outcome.Failed? ==> r.outcome.error.InsufficientStock?)
    ensures r.outcome.Failed? && r.outcome.error.InsufficientStock? ==>
              var k := r.outcome.error.line;
              && k < |pos.cart|
              && ChargePasses(store, pos)
              && AllLinesFit(store.products, pos.cart[..k])
              && r.store.products == ApplyLines(store.products, pos.cart[..k])
              && FindProduct(r.store.products, pos.cart[k].product.id).Some?
              && FindProduct(r.store.products, pos.cart[k].product.id).value.stock == r.outcome.error.available
              && FindProduct(r.store.products, pos.cart[k].product.id).value.name == r.outcome.error.productName
              && r.outcome.error.available - pos.cart[k].quantity < 0
  {
    if |pos.cart| == 0 {
      return CheckoutResult(store, pos, CartEmpty);
    }
    var sale := BuildSale(pos.cart, pos.paymentMethod, pos.selectedCustomer, user, saleId, now);
    var st := store.(sales := CreateSale(store.sales, sale, saleId).table);
    if pos.paymentMethod == Credit {
      var charge := ChargeCredit(st.customers, pos.selectedCustomer, CartTotals(pos.cart).total);
      match charge {
        case NoCustomerSelected =>
          return CheckoutResult(st, pos, Failed(sale, NoCustomer));
        case OverLimit(b, l) =>
          return CheckoutResult(st, pos, Failed(sale, CreditLimitExceeded(b, l)));
        case Charged(cs) =>
          st := st.(customers := cs);
      }
    }
    var run := DeductStock(st.products, pos.cart);
    match run {
      case AllDeducted(ps) =>
        return CheckoutResult(st.(products := ps), IdlePos, Completed(sale));
      case StoppedAt(ps, k, p) =>
        return CheckoutResult(st.(products := ps), pos, Failed(sale, InsufficientStock(k, p.name, p.stock)));
    }
  }

  /** The partial failure, concretely: a two-line cart whose second product
      is out of stock. The loop decrements the first product, stops at the
      second line, and the sale already written stays written. */
  lemma PartialFailureExample()
    ensures var apples := Product("a", "Apples", "", 1.29, 0.8, 5, "Produce", "");
            var bread := Product("b", "Bread", "", 2.49, 1.4, 0, "Bakery", "");
            var cart := [CartLine(apples, 1), CartLine(bread, 1)];
            && AllLinesFit([apples, bread], cart[..1])
            && ApplyLines([apples, bread], cart[..1]) == [apples.(stock := 4), bread]
            && !LineFits(ApplyLines([apples, bread], cart[..1]), cart[1])
            && !AllLinesFit([apples, bread], cart)
  {
    var apples := Product("a", "Apples", "", 1.29, 0.8, 5, "Produce", "");
    var bread := Product("b", "Bread", "", 2.49, 1.4, 0, "Bakery", "");
    var cart := [CartLine(apples, 1), CartLine(bread, 1)];
    assert cart[..1][..0] == [];
    assert cart[..1] == [CartLine(apples, 1)];
    assert cart[..2] == cart;
    assert FindProduct([apples, bread], "a") == Some(apples);
    var after := [apples.(stock := 4), bread];
    assert UpdateProductStock([apples, bread], "a", 4) == after;
    assert after[1].id == "b";
    assert FindProduct(after, "b").Some?;
    assert FindProduct(after, "b") == Some(bread);
  }
}
