/** The inventory screen: the category list, the three list filters, the
    low-stock badge and the add/edit form. */
module Inventory {
  import opened Options
  import opened Seqs
  import opened Records
  import opened Ledger

  // ---------------------------------------------------------------------
  // Categories

  /** The index of the first product in category `c`, or `|products|` when
      there is none. */
  function FirstCategoryIndex(products: seq<Product>, c: string): (n: nat)
    ensures n <= |products|
    ensures n < |products| ==> products[n].category == c
    ensures forall j :: 0 <= j < n ==> products[j].category != c
  {
    if |products| == 0 then 0
    else if products[0].category == c then 0
    else 1 + FirstCategoryIndex(products[1..], c)
  }

  predicate HasCategory(products: seq<Product>, c: string) {
    exists j :: 0 <= j < |products| && products[j].category == c
  }

  /** What the category loop knows after `k` products: `r` holds each
      non-empty category seen so far, and `firsts` records where each first
      appeared, in increasing order. */
  ghost predicate CategoriesSoFar(products: seq<Product>, k: nat, r: seq<string>, firsts: seq<nat>) {
    && k <= |products|
    && (forall c :: c in r <==> c != "" && HasCategory(products[..k], c))
    && |firsts| == |r|
    && (forall a :: 0 <= a < |r| ==> firsts[a] < k && FirstCategoryIndex(products, r[a]) == firsts[a])
    && (forall a, b :: 0 <= a < b < |firsts| ==> firsts[a] < firsts[b])
  }

  /** `[...new Set(products.map(p => p.category))].filter(Boolean)`: every
      non-empty category once, in the order it first appears. */
  method UniqueCategories(products: seq<Product>) returns (r: seq<string>)
    ensures forall c :: c in r <==> c != "" && HasCategory(products, c)
    ensures forall a, b :: 0 <= a < b < |r| ==> r[a] != r[b]
    ensures forall a, b :: 0 <= a < b < |r| ==>
              FirstCategoryIndex(products, r[a]) < FirstCategoryIndex(products, r[b])
  {
    r := [];
    ghost var firsts: seq<nat> := [];
    var k := 0;
    while k < |products|
      invariant CategoriesSoFar(products, k, r, firsts)
    {
      var c := products[k].category;
      if c != "" && c !in r {
        NewCategoryStep(products, k, r, firsts);
        r := r + [c];
        firsts := firsts + [k];
      } else {
        OldCategoryStep(products, k, r, firsts);
      }
      k := k + 1;
    }
    CategoriesDone(products, r, firsts);
  }

  lemma NewCategoryStep(products: seq<Product>, k: nat, r: seq<string>, firsts: seq<nat>)
    requires k < |products| && CategoriesSoFar(products, k, r, firsts)
    requires products[k].category != "" && products[k].category !in r
    ensures CategoriesSoFar(products, k + 1, r + [products[k].category], firsts + [k])
  {
    CategoriesExtend(products, k);
    NewCategoryFirstAt(products, k);
  }

  lemma OldCategoryStep(products: seq<Product>, k: nat, r: seq<string>, firsts: seq<nat>)
    requires k < |products| && CategoriesSoFar(products, k, r, firsts)
    requires products[k].category == "" || products[k].category in r
    ensures CategoriesSoFar(products, k + 1, r, firsts)
  {
    CategoriesExtend(products, k);
  }

  lemma CategoriesDone(products: seq<Product>, r: seq<string>, firsts: seq<nat>)
    requires CategoriesSoFar(products, |products|, r, firsts)
    ensures forall c :: c in r <==> c != "" && HasCategory(products, c)
    ensures forall a, b :: 0 <= a < b < |r| ==> r[a] != r[b]
    ensures forall a, b :: 0 <= a < b < |r| ==>
              FirstCategoryIndex(products, r[a]) < FirstCategoryIndex(products, r[b])
  {
    assert products[..|products|] == products;
  }

  /** Taking one more product adds exactly its category. */
  lemma CategoriesExtend(products: seq<Product>, k: nat)
    requires k < |products|
    ensures forall c :: HasCategory(products[..k + 1], c) <==> HasCategory(products[..k], c) || products[k].category == c
  {
    assert products[..k + 1][k] == products[k];
    assert forall j :: 0 <= j < k ==> products[..k + 1][j] == products[..k][j];
  }

  /** A category not met before position `k` first appears at `k`. */
  lemma NewCategoryFirstAt(products: seq<Product>, k: nat)
    requires k < |products|
    requires !HasCategory(products[..k], products[k].category)
    ensures FirstCategoryIndex(products, products[k].category) == k
  {
    assert forall j :: 0 <= j < k ==> products[j] == products[..k][j];
  }

  // ---------------------------------------------------------------------
  // List filters

  /** The filter bar: the search text, the chosen category (`None` for
      "all") and the low-stock switch. */
  datatype InventoryFilters = InventoryFilters(term: string, category: Option<string>, lowStockOnly: bool)

  predicate InLowStockList(lowStock: seq<Product>, p: Product) {
    exists q :: q in lowStock && q.id == p.id
  }

  /** One product against the three filters. `lowStock` is the low-stock
      list as read from the store when the filter runs. */
  predicate PassesInventoryFilters(f: InventoryFilters, lowStock: seq<Product>, p: Product) {
    && (f.term == "" || MatchesProductSearch(p, f.term))
    && (f.category.None? || p.category == f.category.value)
    && (!f.lowStockOnly || InLowStockList(lowStock, p))
  }

  function InventoryKeep(f: InventoryFilters, lowStock: seq<Product>): Product -> bool {
    (p: Product) => PassesInventoryFilters(f, lowStock, p)
  }

  /** `applyFilters`. The low-stock switch does not look at the listed
      product's own stock: it re-reads the store (`stored`) and keeps the
      listed products whose id is among the stored low-stock ones. */
  function ApplyInventoryFilters(products: seq<Product>, f: InventoryFilters, stored: seq<Product>)
    : (r: seq<Product>)
    ensures forall p :: p in r <==>
              p in products && PassesInventoryFilters(f, GetLowStockProducts(stored, DefaultLowStockThreshold), p)
    ensures forall p :: multiset(r)[p] ==
              if PassesInventoryFilters(f, GetLowStockProducts(stored, DefaultLowStockThreshold), p)
              then multiset(products)[p] else 0
    ensures IsSublist(r, products)
  {
    FilterCount(products, InventoryKeep(f, GetLowStockProducts(stored, DefaultLowStockThreshold)));
    Filter(products, InventoryKeep(f, GetLowStockProducts(stored, DefaultLowStockThreshold)))
  }

  /** When the list shows what the store holds and ids are unique, the
      low-stock switch keeps exactly the products at or below 10 units. */
  lemma LowStockSwitchExact(products: seq<Product>, p: Product)
    requires UniqueProductIds(products)
    requires p in products
    ensures InLowStockList(GetLowStockProducts(products, DefaultLowStockThreshold), p)
            <==> p.stock <= DefaultLowStockThreshold
  {
    var low := GetLowStockProducts(products, DefaultLowStockThreshold);
    if InLowStockList(low, p) {
      var q :| q in low && q.id == p.id;
      var i :| 0 <= i < |products| && products[i] == p;
      var j :| 0 <= j < |products| && products[j] == q;
      assert i == j;
    }
  }

  /** With no search text, every category and the switch off, the whole
      list is shown. */
  lemma NoInventoryFiltersShowsAll(products: seq<Product>, stored: seq<Product>)
    ensures ApplyInventoryFilters(products, InventoryFilters("", None, false), stored) == products
  {
    FilterKeepsAll(products, InventoryKeep(InventoryFilters("", None, false),
                                           GetLowStockProducts(stored, DefaultLowStockThreshold)));
  }

  predicate AtMostTenUnits(p: Product) {
    p.stock <= 10
  }

  /** The low-stock badge counts the loaded products with at most 10 units;
      it agrees with the store's own low-stock query at its default
      threshold. */
  function LowStockCount(products: seq<Product>): (n: nat)
    ensures n <= |products|
    ensures n == |GetLowStockProducts(products, DefaultLowStockThreshold)|
    ensures n == 0 <==> forall i :: 0 <= i < |products| ==> products[i].stock > 10
  {
    var low := Filter(products, AtMostTenUnits);
    FilterCongruent(products, AtMostTenUnits, (p: Product) => p.stock <= DefaultLowStockThreshold);
    assert |low| > 0 ==> low[0] in products;
    assert |low| == 0 ==> forall i :: 0 <= i < |products| ==> products[i] !in low;
    |low|
  }

  // ---------------------------------------------------------------------
  // The add/edit form

  /** The form as submitted, numbers parsed; `cost` is `None` when its
      field was left empty. */
  datatype ProductForm = ProductForm(
    name: string,
    description: string,
    price: real,
    cost: Option<real>,
    stock: int,
    category: string,
    barcode: string)

  /** The product the form describes, without an id. */
  function FormProduct(f: ProductForm): Product {
    Product("", f.name, f.description, f.price, f.cost.GetOr(0.0), f.stock, f.category, f.barcode)
  }

  function FormProductPatch(f: ProductForm): ProductPatch {
    ProductPatch(Some(f.name), Some(f.description), Some(f.price), Some(f.cost.GetOr(0.0)),
                 Some(f.stock), Some(f.category), Some(f.barcode))
  }

  /** `handleSubmit`: an edit overwrites every form field of the edited
      product and keeps its id; otherwise the product is appended under a
      fresh id. An empty cost is stored as 0. */
  function SubmitProduct(products: seq<Product>, f: ProductForm, editingId: Id, newId: Id)
    : (r: seq<Product>)
    requires newId != ""
    ensures editingId != "" ==>
              && |r| == |products|
              && forall i :: 0 <= i < |products| ==>
                   r[i] == if products[i].id == editingId
                           then FormProduct(f).(id := products[i].id)
                           else products[i]
    ensures editingId == "" ==> r == products + [FormProduct(f).(id := newId)]
  {
    if editingId != "" then UpdateProduct(products, editingId, FormProductPatch(f))
    else SaveProduct(products, FormProduct(f), newId).table
  }

  /** Submitting the same edit twice leaves what submitting it once left. */
  lemma SubmitEditIdempotent(products: seq<Product>, f: ProductForm, editingId: Id, newId: Id)
    requires newId != "" && editingId != ""
    ensures SubmitProduct(SubmitProduct(products, f, editingId, newId), f, editingId, newId)
            == SubmitProduct(products, f, editingId, newId)
  {
    UpdateProductIdempotent(products, editingId, FormProductPatch(f));
  }

  /** Adding a product and deleting it by its new id restores the list,
      provided the id was not in use. */
  lemma SubmitNewThenDelete(products: seq<Product>, f: ProductForm, newId: Id)
    requires newId != ""
    requires IdAbsent(products, ProductId, newId)
    ensures DeleteProduct(SubmitProduct(products, f, "", newId), newId) == products
  {
    DeleteUndoesSave(products, FormProduct(f), newId);
  }
}
