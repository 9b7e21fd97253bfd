/** The product catalogue (product/models.py): products with their optional
    discount, the slug they are saved under, soft deletion, the category tree,
    and the colour / feature-value / stock rows that variant stock is kept in.

    `CatalogDb` is the product app's part of the database: every table is a
    field, and a model instance that is changed and then saved is modelled as
    an update of its row. */
module Catalog {
  import opened Wrappers
  import opened Discounts

  /** A `Product` row. Category, brand, image and time stamps are left out. */
  datatype Product = Product(
    name: string, slug: string, price: real, weight: real,
    isActive: bool, isDeleted: bool, discount: Option<Discount>)

  /** A `Category` row; `parent` is the parent's id, `None` for a main branch. */
  datatype Category = Category(id: nat, name: string, parent: Option<nat>, isDeleted: bool)

  /** A `ProductColor` row. */
  datatype ProductColor = ProductColor(id: nat, product: int, name: string)

  /** A `FeatureValue` row, with the name of its `Feature` joined in. */
  datatype FeatureValue = FeatureValue(id: nat, feature: string, value: string)

  /** A `ProductStock` row: the stock count of one (product, colour), linked to a set of feature values. */
  datatype ProductStock = ProductStock(id: nat, product: int, colour: nat, featureValues: set<nat>, stock: nat)

  /** Why a `save` refused a row: a unique constraint (`Product.slug`, the
      one-to-one `Discount.product`, `DiscountCode.code`), or `clean`. */
  datatype SaveError = DuplicateSlug | DiscountTaken | CodeTaken | NotClean(CleanError)

  // ---------------------------------------------------------------------------
  // Final price

  /** `Product.get_final_price`: the discounted price while the product's discount is valid. */
  function FinalPrice(p: Product, now: Time): (r: real)
    ensures p.discount.None? || !IsValid(p.discount.value, now) || p.discount.value.kind == Other ==> r == p.price
    ensures p.discount.Some? && IsValid(p.discount.value, now) && p.discount.value.kind == Amount ==> 0.0 <= r
  {
    if p.discount.Some? && IsValid(p.discount.value, now) then Apply(p.discount.value, p.price, now)
    else p.price
  }

  /** The validity test in `get_final_price` is redundant with the one inside
      `apply_discount`: the final price is the price without a discount, and
      the discount applied to it otherwise. */
  lemma FinalPriceIsApplied(p: Product, now: Time)
    ensures p.discount.None? ==> FinalPrice(p, now) == p.price
    ensures p.discount.Some? ==> FinalPrice(p, now) == Apply(p.discount.value, p.price, now)
    ensures p.discount.Some? && !IsValid(p.discount.value, now) ==> FinalPrice(p, now) == p.price
  {
  }

  /** With a discount that passed `clean` and a non-negative value, the final
      price lies between 0 and the list price. */
  lemma FinalPriceWithinPrice(p: Product, now: Time)
    requires 0.0 <= p.price
    requires p.discount.Some? ==> 0.0 <= p.discount.value.value && Admissible(p.discount.value, p.price)
    ensures 0.0 <= FinalPrice(p, now) <= p.price
  {
    if p.discount.Some? && IsValid(p.discount.value, now) {
      ReduceWithinPrice(p.discount.value.kind, p.discount.value.value, p.price);
    }
  }

  // ---------------------------------------------------------------------------
  // Slugs

  function DigitChar(d: nat): char
    requires d < 10
  {
    ('0' as int + d) as char
  }

  /** The decimal form of `n`, as Python's `f"{n}"` writes it. */
  function NatToString(n: nat): (s: string)
    ensures |s| >= 1
    ensures n < 10 <==> |s| == 1
  {
    if n < 10 then [DigitChar(n)] else NatToString(n / 10) + [DigitChar(n % 10)]
  }

  /** Different numbers are written differently. */
  lemma {:induction false} NatToStringInjective(a: nat, b: nat)
    requires NatToString(a) == NatToString(b)
    ensures a == b
    decreases a
  {
    if 10 <= a {
      var sa, sb := NatToString(a), NatToString(b);
      assert sa == NatToString(a / 10) + [DigitChar(a % 10)];
      assert sb == NatToString(b / 10) + [DigitChar(b % 10)];
      assert sa[|sa| - 1] == sb[|sb| - 1];
      assert sa[..|sa| - 1] == NatToString(a / 10);
      assert sb[..|sb| - 1] == NatToString(b / 10);
      NatToStringInjective(a / 10, b / 10);
    }
  }

  /** The `n`-th slug the save loop tries: the base slug itself, then `base-1`, `base-2`, ... */
  function Candidate(base: string, n: nat): string
  {
    if n == 0 then base else base + "-" + NatToString(n)
  }

  lemma CandidateInjective(base: string, i: nat, j: nat)
    requires Candidate(base, i) == Candidate(base, j)
    ensures i == j
  {
    if i != 0 && j != 0 {
      var ci, cj := Candidate(base, i), Candidate(base, j);
      assert ci[|base| + 1..] == NatToString(i);
      assert cj[|base| + 1..] == NatToString(j);
      NatToStringInjective(i, j);
    }
  }

  /** The slugs of all product rows. */
  function SlugsOf(products: map<int, Product>): set<string>
  {
    set k | k in products :: products[k].slug
  }

  /** Some product row other than `pid` already has `slug`. */
  predicate TakenByOther(products: map<int, Product>, pid: int, slug: string)
  {
    exists k :: k in products && k != pid && products[k].slug == slug
  }

  /** The loop in `Product.save`: the base slug if no row has it, otherwise
      `base-n` for the smallest `n >= 1` that no row has. */
  method UniqueSlug(base: string, taken: set<string>) returns (slug: string)
    ensures slug !in taken
    ensures base !in taken ==> slug == base
    ensures base in taken ==>
      exists n :: n >= 1 && slug == Candidate(base, n) && forall k :: 0 <= k < n ==> Candidate(base, k) in taken
  {
    slug := base;
    var num: nat := 0;
    ghost var seen: set<string> := {};
    while slug in taken
      invariant slug == Candidate(base, num)
      invariant forall k :: 0 <= k < num ==> Candidate(base, k) in taken
      invariant seen <= taken && |seen| == num
      invariant forall s :: s in seen ==> exists k :: 0 <= k < num && s == Candidate(base, k)
      decreases |taken| - |seen|
    {
      forall k | 0 <= k < num
        ensures Candidate(base, k) != slug
      {
        if Candidate(base, k) == slug {
          CandidateInjective(base, k, num);
        }
      }
      assert slug !in seen;
      seen := seen + {slug};
      assert taken == seen + (taken - seen);
      num := num + 1;
      slug := Candidate(base, num);
    }
  }

  // ---------------------------------------------------------------------------
  // Categories

  /** `Category.is_main_branch`. */
  predicate IsMainBranch(c: Category)
  {
    c.parent.None?
  }

  /** The ids of the categories whose parent is `id` (`subcategories.all()`), in table order. */
  function Children(categories: seq<Category>, id: nat): (r: seq<nat>)
    ensures |r| <= |categories|
    ensures forall x :: x in r <==> exists i :: 0 <= i < |categories| && categories[i].parent == Some(id) && categories[i].id == x
  {
    if categories == [] then []
    else
      var last := categories[|categories| - 1];
      var rest := Children(categories[..|categories| - 1], id);
      assert forall i :: 0 <= i < |categories| - 1 ==> categories[..|categories| - 1][i] == categories[i];
      if last.parent == Some(id) then rest + [last.id] else rest
  }

  /** `Category.get_all_branches`: the children of a main branch, `None` otherwise. */
  function AllBranches(categories: seq<Category>, c: Category): (r: Option<seq<nat>>)
    ensures r.Some? <==> IsMainBranch(c)
    ensures r.Some? ==> forall x :: x in r.value ==> exists i :: 0 <= i < |categories| && categories[i].parent == Some(c.id) && categories[i].id == x
    ensures r.Some? ==> forall i :: 0 <= i < |categories| && categories[i].parent == Some(c.id) ==> categories[i].id in r.value
  {
    if IsMainBranch(c) then Some(Children(categories, c.id)) else None
  }

  /** `Category.show_related_branches`: a main branch lists its children and
      then itself; any other category lists its parent's children (itself and
      its siblings) and then its parent. */
  function ShowRelatedBranches(categories: seq<Category>, c: Category): (r: seq<nat>)
    ensures |r| >= 1
    ensures r[|r| - 1] == (if IsMainBranch(c) then c.id else c.parent.value)
    ensures forall j :: 0 <= j < |r| - 1 ==>
      exists i :: 0 <= i < |categories| && categories[i].parent == Some(r[|r| - 1]) && categories[i].id == r[j]
    ensures forall i :: 0 <= i < |categories| && categories[i].parent == Some(r[|r| - 1]) ==>
      categories[i].id in r[..|r| - 1]
  {
    var anchor := if IsMainBranch(c) then c.id else c.parent.value;
    var r := Children(categories, anchor) + [anchor];
    assert r[..|r| - 1] == Children(categories, anchor);
    assert forall j :: 0 <= j < |r| - 1 ==> r[j] in Children(categories, anchor);
    r
  }

  // ---------------------------------------------------------------------------
  // The product app's tables

  /** `unique_together = ('product', 'color')` on `ProductStock`. */
  predicate StockUniquePerColour(stocks: seq<ProductStock>)
  {
    forall i, j :: 0 <= i < j < |stocks| ==>
      !(stocks[i].product == stocks[j].product && stocks[i].colour == stocks[j].colour)
  }

  /** `unique=True` on `Product.slug`. */
  predicate SlugsUnique(products: map<int, Product>)
  {
    forall a, b :: a in products && b in products && a != b ==> products[a].slug != products[b].slug
  }

  class CatalogDb {
    var products: map<int, Product>
    var categories: seq<Category>
    var colours: seq<ProductColor>
    var featureValues: seq<FeatureValue>
    var stocks: seq<ProductStock>
    var codes: map<string, DiscountCode>

    /** The constraints the database and the `save` hooks keep: unique slugs,
        one stock row per (product, colour), codes stored under their own code
        and only after `clean` passed. */
    ghost predicate Valid()
      reads this
    {
      && SlugsUnique(products)
      && StockUniquePerColour(stocks)
      && forall k :: k in codes ==> codes[k].code == k && CodeAdmissible(codes[k])
    }

    constructor ()
      ensures Valid()
      ensures products == map[] && categories == [] && colours == [] && featureValues == [] && stocks == [] && codes == map[]
    {
      products, categories, colours, featureValues, stocks, codes := map[], [], [], [], [], map[];
    }

    /** `Product.save`: an empty slug is replaced by the first free candidate
        derived from `slugify(name)`; then the row is written, unless another
        row already has its slug. */
    method SaveProduct(pid: int, p: Product, slugify: string -> string) returns (r: Result<Product, SaveError>)
      modifies this`products
      ensures r.Ok? ==> r.value == p.(slug := r.value.slug) && products == old(products)[pid := r.value]
      ensures r.Err? ==> products == old(products) && p.slug != "" && TakenByOther(old(products), pid, p.slug)
      ensures p.slug != "" ==> (r.Ok? <==> !TakenByOther(old(products), pid, p.slug)) && (r.Ok? ==> r.value.slug == p.slug)
      ensures p.slug == "" ==> r.Ok? && r.value.slug !in old(SlugsOf(products))
      ensures p.slug == "" && slugify(p.name) !in old(SlugsOf(products)) ==> r.Ok? && r.value.slug == slugify(p.name)
      ensures p.slug == "" && slugify(p.name) in old(SlugsOf(products)) ==>
        && r.Ok?
        && exists n :: n >= 1 && r.value.slug == Candidate(slugify(p.name), n) &&
             forall k :: 0 <= k < n ==> Candidate(slugify(p.name), k) in old(SlugsOf(products))
      ensures old(SlugsUnique(products)) ==> SlugsUnique(products)
    {
      var slug := p.slug;
      if slug == "" {
        slug := UniqueSlug(slugify(p.name), SlugsOf(products));
      }
      if TakenByOther(products, pid, slug) {
        r := Err(DuplicateSlug);
      } else {
        r := Ok(p.(slug := slug));
        products := products[pid := r.value];
      }
    }

    /** `Product.soft_delete`: mark deleted and inactive, then save. */
    method SoftDeleteProduct(pid: int, slugify: string -> string) returns (r: Result<Product, SaveError>)
      requires pid in products
      modifies this`products
      ensures r.Ok? ==> products == old(products)[pid := r.value]
      ensures r.Ok? ==> r.value.isDeleted && !r.value.isActive
      ensures r.Ok? ==> r.value.(slug := old(products[pid].slug)) == old(products[pid]).(isDeleted := true, isActive := false)
      ensures r.Ok? && old(products[pid].slug) != "" ==> r.value == old(products[pid]).(isDeleted := true, isActive := false)
      ensures old(products[pid].slug) == "" ==> r.Ok? && r.value.slug !in old(SlugsOf(products))
      ensures old(products[pid].slug) == "" && slugify(old(products[pid].name)) !in old(SlugsOf(products)) ==>
        r.Ok? && r.value.slug == slugify(old(products[pid].name))
      ensures old(products[pid].slug) == "" && slugify(old(products[pid].name)) in old(SlugsOf(products)) ==>
        && r.Ok?
        && exists n :: n >= 1 && r.value.slug == Candidate(slugify(old(products[pid].name)), n) &&
             forall k :: 0 <= k < n ==> Candidate(slugify(old(products[pid].name)), k) in old(SlugsOf(products))
      ensures r.Err? ==> products == old(products)
      ensures old(SlugsUnique(products)) ==> r.Ok? && SlugsUnique(products)
    {
      var p := products[pid].(isDeleted := true, isActive := false);
      r := SaveProduct(pid, p, slugify);
    }

    /** `Product.restore`: mark not deleted and active again, then save. */
    method RestoreProduct(pid: int, slugify: string -> string) returns (r: Result<Product, SaveError>)
      requires pid in products
      modifies this`products
      ensures r.Ok? ==> products == old(products)[pid := r.value]
      ensures r.Ok? ==> !r.value.isDeleted && r.value.isActive
      ensures r.Ok? ==> r.value.(slug := old(products[pid].slug)) == old(products[pid]).(isDeleted := false, isActive := true)
      ensures r.Ok? && old(products[pid].slug) != "" ==> r.value == old(products[pid]).(isDeleted := false, isActive := true)
      ensures old(products[pid].slug) == "" ==> r.Ok? && r.value.slug !in old(SlugsOf(products))
      ensures old(products[pid].slug) == "" && slugify(old(products[pid].name)) !in old(SlugsOf(products)) ==>
        r.Ok? && r.value.slug == slugify(old(products[pid].name))
      ensures old(products[pid].slug) == "" && slugify(old(products[pid].name)) in old(SlugsOf(products)) ==>
        && r.Ok?
        && exists n :: n >= 1 && r.value.slug == Candidate(slugify(old(products[pid].name)), n) &&
             forall k :: 0 <= k < n ==> Candidate(slugify(old(products[pid].name)), k) in old(SlugsOf(products))
      ensures r.Err? ==> products == old(products)
      ensures old(SlugsUnique(products)) ==> r.Ok? && SlugsUnique(products)
    {
      var p := products[pid].(isDeleted := false, isActive := true);
      r := SaveProduct(pid, p, slugify);
    }

    /** `Discount.save` of a discount for product `pid`: `clean` runs against
        that product's price, then the row is written. `row` is the product
        that holds the row being saved (`None` for a new row); the one-to-one
        constraint refuses a second discount for a product. */
    method SaveDiscount(pid: int, d: Discount, row: Option<int>) returns (r: Option<SaveError>)
      requires pid in products
      requires row.Some? ==> row.value in products && products[row.value].discount.Some?
      modifies this`products
      ensures Clean(d, old(products[pid].price)).Some? ==> r == Some(NotClean(Clean(d, old(products[pid].price)).value))
      ensures Clean(d, old(products[pid].price)).None? && old(products[pid].discount).Some? && row != Some(pid) ==>
        r == Some(DiscountTaken)
      ensures r.None? <==>
        Clean(d, old(products[pid].price)).None? && (old(products[pid].discount).None? || row == Some(pid))
      ensures r.Some? ==> products == old(products)
      ensures r.None? ==>
        var moved := if row.Some? then old(products)[row.value := old(products[row.value]).(discount := None)] else old(products);
        products == moved[pid := old(products[pid]).(discount := Some(d))]
      ensures r.None? ==> Admissible(products[pid].discount.value, products[pid].price)
      ensures old(SlugsUnique(products)) ==> SlugsUnique(products)
    {
      var refused := Clean(d, products[pid].price);
      if refused.Some? {
        return Some(NotClean(refused.value));
      }
      if products[pid].discount.Some? && row != Some(pid) {
        return Some(DiscountTaken);
      }
      var target := products[pid];
      if row.Some? {
        products := products[row.value := products[row.value].(discount := None)];
      }
      products := products[pid := target.(discount := Some(d))];
      r := None;
    }

    /** `DiscountCode.save`: `clean` runs, then the row is written under its
        code. `row` is the code the row was stored under (`None` for a new
        row); the unique constraint refuses a code another row holds, and an
        edited code moves the row to its new key. */
    method SaveCode(c: DiscountCode, row: Option<string>) returns (r: Option<SaveError>)
      requires row.Some? ==> row.value in codes
      modifies this`codes
      ensures CleanCode(c).Some? ==> r == Some(NotClean(CleanCode(c).value))
      ensures CleanCode(c).None? && c.code in old(codes) && row != Some(c.code) ==> r == Some(CodeTaken)
      ensures r.None? <==> CleanCode(c).None? && (c.code !in old(codes) || row == Some(c.code))
      ensures r.Some? ==> codes == old(codes)
      ensures r.None? ==> codes == (if row.Some? then old(codes) - {row.value} else old(codes))[c.code := c]
      ensures old(Valid()) ==> Valid()
    {
      var refused := CleanCode(c);
      if refused.Some? {
        return Some(NotClean(refused.value));
      }
      if c.code in codes && row != Some(c.code) {
        return Some(CodeTaken);
      }
      if row.Some? {
        codes := codes - {row.value};
      }
      codes := codes[c.code := c];
      r := None;
    }

    /** `Category.soft_delete`. */
    method SoftDeleteCategory(i: nat)
      requires i < |categories|
      modifies this`categories
      ensures categories == old(categories)[i := old(categories[i]).(isDeleted := true)]
    {
      categories := categories[i := categories[i].(isDeleted := true)];
    }

    /** `Category.restore`. */
    method RestoreCategory(i: nat)
      requires i < |categories|
      modifies this`categories
      ensures categories == old(categories)[i := old(categories[i]).(isDeleted := false)]
    {
      categories := categories[i := categories[i].(isDeleted := false)];
    }
  }
}
