/** The customers screen: manual balance adjustments with their
    confirmation prompts, credit utilisation and status, the add/edit form,
    the search box and the summary figures. The operator's answers to the
    confirmation prompts are inputs. */
module CustomerCredit {
  import opened Options
  import opened Seqs
  import opened Text
  import opened Money
  import opened Records
  import opened Ledger

  // ---------------------------------------------------------------------
  // Manual balance adjustment

  datatype CreditAction = AddToBalance | SubtractFromBalance

  /** The balance the adjustment aims for; a missing balance counts as 0. */
  function TargetBalance(c: Customer, action: CreditAction, amount: real): real {
    if action == AddToBalance then BalanceOrZero(c) + amount else BalanceOrZero(c) - amount
  }

  /** Only a subtraction that goes below zero asks "negative balance?". */
  predicate AsksNegative(action: CreditAction, newBalance: real) {
    action == SubtractFromBalance && newBalance < 0.0
  }

  datatype CreditUpdate =
    | InvalidAmount
    | Declined
    | Updated(customers: seq<Customer>, newBalance: real)

  /** `handleCreditUpdate`. `amount` is the parsed amount field, `None` when
      it is empty or not a number. `confirmNegative` and `confirmOverLimit`
      are the operator's answers to the two prompts, consulted only when the
      prompt is shown. */
  function HandleCreditUpdate(customers: seq<Customer>, selected: Customer, action: CreditAction,
                              amount: Option<real>, confirmNegative: bool, confirmOverLimit: bool)
    : (r: CreditUpdate)
    ensures amount.None? <==> r.InvalidAmount?
    ensures amount.Some? ==>
              var nb := TargetBalance(selected, action, amount.value);
              && (r.Updated? <==> (!AsksNegative(action, nb) || confirmNegative)
                                  && (!ExceedsLimit(nb, selected.creditLimit) || confirmOverLimit))
              && (r.Updated? ==> r.newBalance == nb
                                 && r.customers == UpdateCustomerBalance(customers, selected.id, nb))
  {
    if amount.None? then InvalidAmount
    else
      var nb := TargetBalance(selected, action, amount.value);
      if AsksNegative(action, nb) && !confirmNegative then Declined
      else if ExceedsLimit(nb, selected.creditLimit) && !confirmOverLimit then Declined
      else Updated(UpdateCustomerBalance(customers, selected.id, nb), nb)
  }

  /** An add and a subtract of the same amount (both in cents) cancel: the
      balance stored after both is the balance before. */
  lemma SubtractUndoesAdd(c: Customer, amount: real)
    requires IsCents(BalanceOrZero(c)) && IsCents(amount)
    ensures var added := c.(currentBalance := Some(Round2(TargetBalance(c, AddToBalance, amount))));
            Round2(TargetBalance(added, SubtractFromBalance, amount)) == BalanceOrZero(c)
  {
    var b := BalanceOrZero(c);
    CentsAdd(b, amount);
    Round2OfCents(b + amount);
    assert (b + amount) - amount == b;
    Round2OfCents(b);
  }

  // ---------------------------------------------------------------------
  // Utilisation and status

  /** `getCreditUtilization`: balance as a percentage of the limit; 0 when
      the limit is missing or zero. */
  function CreditUtilization(c: Customer): (u: real)
    ensures c.creditLimit.None? || c.creditLimit.value == 0.0 ==> u == 0.0
    ensures c.creditLimit.Some? && c.creditLimit.value != 0.0 ==>
              u * c.creditLimit.value == BalanceOrZero(c) * 100.0
  {
    if c.creditLimit.None? || c.creditLimit.value == 0.0 then 0.0
    else BalanceOrZero(c) / c.creditLimit.value * 100.0
  }

  /** Under a positive limit, utilisation is at most 100 exactly when the
      balance is within the limit. */
  lemma UtilizationWithinLimit(c: Customer)
    requires c.creditLimit.Some? && c.creditLimit.value > 0.0
    ensures CreditUtilization(c) <= 100.0 <==> BalanceOrZero(c) <= c.creditLimit.value
  {
    var u := CreditUtilization(c);
    var l := c.creditLimit.value;
    assert u * l == BalanceOrZero(c) * 100.0;
    if u <= 100.0 {
      assert u * l <= 100.0 * l;
    } else {
      assert u * l > 100.0 * l;
    }
  }

  datatype CreditStatus = Good | Warning | Critical

  /** `getCreditStatus`. */
  function GetCreditStatus(utilization: real): (s: CreditStatus)
    ensures s == Critical <==> utilization >= 90.0
    ensures s == Warning <==> 70.0 <= utilization < 90.0
    ensures s == Good <==> utilization < 70.0
  {
    if utilization >= 90.0 then Critical
    else if utilization >= 70.0 then Warning
    else Good
  }

  function Severity(s: CreditStatus): nat {
    match s
    case Good => 0
    case Warning => 1
    case Critical => 2
  }

  /** More utilisation never means a milder status. */
  lemma StatusMonotone(u1: real, u2: real)
    requires u1 <= u2
    ensures Severity(GetCreditStatus(u1)) <= Severity(GetCreditStatus(u2))
  {
  }

  // ---------------------------------------------------------------------
  // The add/edit form

  /** The form as submitted. `creditLimit` and `currentBalance` are the
      parsed number fields, `None` when the text does not parse. */
  datatype CustomerForm = CustomerForm(
    name: string,
    phone: string,
    email: string,
    address: string,
    creditLimit: Option<real>,
    currentBalance: Option<real>)

  /** `parseFloat(text) || 0`. */
  function ParsedOrZero(x: Option<real>): real {
    x.GetOr(0.0)
  }

  function FormPatch(f: CustomerForm): CustomerPatch {
    CustomerPatch(Some(f.name), Some(f.phone), Some(f.email), Some(f.address),
                  Some(ParsedOrZero(f.creditLimit)), Some(ParsedOrZero(f.currentBalance)))
  }

  function FormCustomer(f: CustomerForm): Customer {
    Customer("", f.name, f.phone, f.email, f.address,
             Some(ParsedOrZero(f.creditLimit)), Some(ParsedOrZero(f.currentBalance)))
  }

  /** `handleSubmit`: an edit overwrites every form field of the edited
      customer (and only of it); otherwise one new customer is appended
      under a fresh id. Unparsable numbers are stored as 0. */
  function SubmitCustomer(customers: seq<Customer>, f: CustomerForm, editingId: Id, newId: Id)
    : (r: seq<Customer>)
    requires newId != ""
    ensures editingId != "" ==>
              && |r| == |customers|
              && forall i :: 0 <= i < |customers| ==>
                   r[i] == if customers[i].id == editingId
                           then FormCustomer(f).(id := customers[i].id)
                           else customers[i]
    ensures editingId == "" ==> r == customers + [FormCustomer(f).(id := newId)]
    ensures forall i :: 0 <= i < |r| && (editingId == "" ==> i == |customers|)
                        && (editingId != "" ==> customers[i].id == editingId) ==>
              r[i].creditLimit.Some? && r[i].currentBalance.Some?
  {
    if editingId != "" then UpdateCustomer(customers, editingId, FormPatch(f))
    else CreateCustomer(customers, FormCustomer(f), newId).table
  }

  // ---------------------------------------------------------------------
  // Search and summary

  /** Name and email match ignoring case; the phone number matches exactly. */
  predicate MatchesCustomerSearch(c: Customer, term: string) {
    || Contains(Lower(c.name), Lower(term))
    || (c.phone != "" && Contains(c.phone, term))
    || (c.email != "" && Contains(Lower(c.email), Lower(term)))
  }

  /** The search-box filter of the customers list. */
  function FilterCustomers(customers: seq<Customer>, term: string): (r: seq<Customer>)
    ensures term == "" ==> r == customers
    ensures forall c :: c in r <==> c in customers && (term == "" || MatchesCustomerSearch(c, term))
    ensures forall c :: multiset(r)[c] ==
              if term == "" || MatchesCustomerSearch(c, term) then multiset(customers)[c] else 0
    ensures IsSublist(r, customers)
  {
    if term == "" then
      SublistRefl(customers);
      customers
    else
      var keep := (c: Customer) => MatchesCustomerSearch(c, term);
      FilterCount(customers, keep);
      Filter(customers, keep)
  }

  /** Submitting the same edit twice leaves what submitting it once left. */
  lemma SubmitCustomerEditIdempotent(customers: seq<Customer>, f: CustomerForm, editingId: Id, newId: Id)
    requires newId != "" && editingId != ""
    ensures SubmitCustomer(SubmitCustomer(customers, f, editingId, newId), f, editingId, newId)
            == SubmitCustomer(customers, f, editingId, newId)
  {
    UpdateCustomerIdempotent(customers, editingId, FormPatch(f));
  }

  /** Adding a customer and deleting them by their new id restores the
      list, provided the id was not in use. */
  lemma SubmitNewCustomerThenDelete(customers: seq<Customer>, f: CustomerForm, newId: Id)
    requires newId != ""
    requires IdAbsent(customers, CustomerId, newId)
    ensures DeleteCustomer(SubmitCustomer(customers, f, "", newId), newId) == customers
  {
    DeleteUndoesCreateCustomer(customers, FormCustomer(f), newId);
  }

  /** Searching the search result again with the same term changes nothing. */
  lemma FilterCustomersIdempotent(customers: seq<Customer>, term: string)
    ensures FilterCustomers(FilterCustomers(customers, term), term) == FilterCustomers(customers, term)
  {
    if term != "" {
      var keep := (c: Customer) => MatchesCustomerSearch(c, term);
      var once := Filter(customers, keep);
      FilterKeepsAll(once, keep);
    }
  }

  /** Every customer is found by searching for their own name. */
  lemma FoundByOwnName(customers: seq<Customer>, c: Customer)
    requires c in customers
    ensures c in FilterCustomers(customers, c.name)
  {
    var n := Lower(c.name);
    assert n[..|n|] == n;
    assert StartsWith(n, n);
  }

  predicate HasCreditLine(c: Customer) {
    c.creditLimit.Some? && c.creditLimit.value > 0.0
  }

  /** "Active credit accounts": customers with a positive limit. */
  function ActiveCreditAccounts(customers: seq<Customer>): (n: nat)
    ensures n <= |customers|
    ensures n == 0 <==> forall i :: 0 <= i < |customers| ==> !HasCreditLine(customers[i])
  {
    var active := Filter(customers, HasCreditLine);
    assert |active| > 0 ==> active[0] in customers;
    assert |active| == 0 ==> forall i :: 0 <= i < |customers| ==> customers[i] !in active;
    |active|
  }

  /** One more customer adds one to the count exactly when they have a
      credit line; with the empty list counting zero, this fixes the count
      as the number of customers with a positive limit. */
  lemma ActiveCreditAccountsStep(customers: seq<Customer>, c: Customer)
    ensures ActiveCreditAccounts([]) == 0
    ensures ActiveCreditAccounts(customers + [c])
            == ActiveCreditAccounts(customers) + (if HasCreditLine(c) then 1 else 0)
  {
    FilterAppend(customers, [c], HasCreditLine);
    assert Filter([c], HasCreditLine) == if HasCreditLine(c) then [c] else [];
  }

  /** "Total credit balance": the sum of balances, missing ones as 0. */
  function TotalCreditBalance(customers: seq<Customer>): real {
    SumOf(customers, BalanceOrZero)
  }

  /** Creating a customer adds exactly its (defaulted) balance to the total. */
  lemma TotalBalanceAfterCreate(customers: seq<Customer>, c: Customer, newId: Id)
    requires newId != ""
    ensures TotalCreditBalance(CreateCustomer(customers, c, newId).table)
            == TotalCreditBalance(customers) + BalanceOrZero(c)
  {
    var k := CreateCustomer(customers, c, newId);
    SumOfAppend(customers, [k.record], BalanceOrZero);
  }
}
