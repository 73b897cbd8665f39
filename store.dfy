/** The store page: a fixed catalog, a category filter, a detail overlay
    for one selected product, and a purchase affordance gated by the
    user's points. */
module Store {
  import opened Wrappers

  datatype Product = Product(
    id: int,
    name: string,
    description: string,
    price: int,
    image: string,
    category: string)

  /** The catalog, in display order. */
  const Products: seq<Product> := [
    Product(1, "Explorer Tee", "A versatile t-shirt perfect for adventurers.", 90, "/images/bag6.jpg", "Tshirt"),
    Product(2, "Urban Comfort", "Stylish and comfy for everyday wear.", 60, "/images/shirt.jpg", "Tshirt"),
    Product(3, "Dynamic Tee", "Ideal for an active lifestyle.", 82, "/images/headphones.jpeg", "Tshirt"),
    Product(4, "Classic Fit", "A timeless t-shirt for any occasion.", 50, "/images/shirt.jpg", "Tshirt"),
    Product(5, "Traveler's Choice", "Comfort meets functionality for travel enthusiasts.", 90, "/images/bag2.jpeg", "Tshirt"),
    Product(6, "Sleek Tee", "Minimalist design with maximum comfort.", 64, "/images/bag3.jpeg", "Tshirt"),
    Product(7, "Active Wear", "Perfect for workouts and casual outings.", 81, "/images/headphones3.jpeg", "Tshirt"),
    Product(8, "Chill Mode", "Relax in style with this casual tee.", 30, "/images/shirt.jpg", "Tshirt"),
    Product(9, "Hoodie Haven", "Stay cozy with this premium hoodie.", 90, "/images/hoodie.png", "Hoodie"),
    Product(10, "Streetwear Vibes", "Elevate your look with this trendy tee.", 64, "/images/headphones3.jpeg", "Tshirt"),
    Product(11, "Modern Basics", "A go-to choice for a simple yet stylish outfit.", 81, "/images/shirt.jpg", "Tshirt"),
    Product(12, "Adventure Ready", "Lightweight and durable for your next journey.", 30, "/images/headphones4.jpeg", "Tshirt")
  ]

  /** The synthetic category that matches every product. */
  const AllCategory: string := "All"

  /** The category buttons, in display order. */
  const Categories: seq<string> := [AllCategory, "Tshirt", "Bags", "Headphones", "Hoodie", "Short"]

  /** The user's point balance. */
  const UserPoints: int := 100

  // ---------------------------------------------------------------------
  // Filtering

  /** `ps.filter(p => p.category === category)`. */
  function ByCategory(ps: seq<Product>, category: string): (r: seq<Product>)
    ensures forall p :: p in r <==> p in ps && p.category == category
  {
    if ps == [] then []
    else (if ps[0].category == category then [ps[0]] else []) + ByCategory(ps[1..], category)
  }

  /** Each matching product occurs in the filtered list exactly as often as
      in the input, and no other product occurs. */
  lemma {:induction false} ByCategoryCounts(ps: seq<Product>, category: string, p: Product)
    ensures multiset(ByCategory(ps, category))[p] ==
              if p.category == category then multiset(ps)[p] else 0
  {
    if ps != [] {
      ByCategoryCounts(ps[1..], category, p);
      assert ps == [ps[0]] + ps[1..];
    }
  }

  /** `f` maps each position of `a` to a position of `b` holding the same
      product, strictly increasingly. */
  ghost predicate IsEmbedding(f: seq<nat>, a: seq<Product>, b: seq<Product>)
  {
    && |f| == |a|
    && (forall i :: 0 <= i < |f| ==> f[i] < |b| && a[i] == b[f[i]])
    && (forall i, j :: 0 <= i < j < |f| ==> f[i] < f[j])
  }

  /** `a` is `b` with some entries removed, the rest in their order. */
  ghost predicate IsSubsequence(a: seq<Product>, b: seq<Product>)
  {
    exists f :: IsEmbedding(f, a, b)
  }

  /** The products displayed for the selected category. */
  function Filtered(catalog: seq<Product>, category: string): seq<Product>
  {
    if category == AllCategory then catalog else ByCategory(catalog, category)
  }

  /** Every position moved one to the right. */
  ghost function Shift(g: seq<nat>): (f: seq<nat>)
    ensures |f| == |g| && forall i :: 0 <= i < |g| ==> f[i] == g[i] + 1
  {
    seq(|g|, i requires 0 <= i < |g| => g[i] + 1)
  }

  /** An embedding into the tail of `b` is one into `b`, shifted. */
  lemma ShiftEmbedding(g: seq<nat>, a: seq<Product>, b: seq<Product>)
    requires b != [] && IsEmbedding(g, a, b[1..])
    ensures IsEmbedding(Shift(g), a, b)
  {
  }

  /** Prepending the head of `b` to `a` extends an embedding at position 0. */
  lemma ConsEmbedding(g: seq<nat>, a: seq<Product>, b: seq<Product>)
    requires b != [] && IsEmbedding(g, a, b[1..])
    ensures IsEmbedding([0] + Shift(g), [b[0]] + a, b)
  {
  }

  /** Filtering keeps the catalog order. */
  lemma {:induction false} ByCategoryIsSubsequence(ps: seq<Product>, category: string)
    ensures IsSubsequence(ByCategory(ps, category), ps)
  {
    if ps == [] {
      assert IsEmbedding([], [], ps);
    } else {
      var rest := ByCategory(ps[1..], category);
      ByCategoryIsSubsequence(ps[1..], category);
      var g :| IsEmbedding(g, rest, ps[1..]);
      if ps[0].category == category {
        assert ByCategory(ps, category) == [ps[0]] + rest;
        ConsEmbedding(g, rest, ps);
      } else {
        assert ByCategory(ps, category) == rest;
        ShiftEmbedding(g, rest, ps);
      }
    }
  }

  /** A category nobody carries filters to the empty list. */
  lemma ByCategoryAbsent(ps: seq<Product>, category: string)
    requires forall i :: 0 <= i < |ps| ==> ps[i].category != category
    ensures ByCategory(ps, category) == []
  {
  }

  /** A category carried by exactly one entry filters to that entry alone. */
  lemma {:induction false} ByCategorySingleMatch(ps: seq<Product>, k: nat, category: string)
    requires k < |ps| && ps[k].category == category
    requires forall i :: 0 <= i < |ps| && i != k ==> ps[i].category != category
    ensures ByCategory(ps, category) == [ps[k]]
  {
    var tail := ps[1..];
    assert forall i :: 0 <= i < |tail| ==> tail[i] == ps[i + 1];
    if k == 0 {
      ByCategoryAbsent(tail, category);
    } else {
      ByCategorySingleMatch(tail, k - 1, category);
    }
  }

  /** A list whose entries all carry the category filters to itself. */
  lemma {:induction false} ByCategoryKeepsMatching(ps: seq<Product>, category: string)
    requires forall p :: p in ps ==> p.category == category
    ensures ByCategory(ps, category) == ps
  {
    if ps != [] {
      ByCategoryKeepsMatching(ps[1..], category);
      assert ps == [ps[0]] + ps[1..];
    }
  }

  /** "All" shows the whole catalog; any other category exactly the
      entries carrying it, in catalog order. */
  lemma FilteredMeaning(catalog: seq<Product>, category: string)
    ensures category == AllCategory ==> Filtered(catalog, category) == catalog
    ensures category != AllCategory ==>
              forall p :: p in Filtered(catalog, category) <==> p in catalog && p.category == category
    ensures IsSubsequence(Filtered(catalog, category), catalog)
  {
    if category == AllCategory {
      var id := seq(|catalog|, i requires 0 <= i < |catalog| => i);
      assert IsEmbedding(id, catalog, catalog);
    } else {
      ByCategoryIsSubsequence(catalog, category);
    }
  }

  /** Filtering the displayed list again by the same category changes nothing. */
  lemma FilteredIdempotent(catalog: seq<Product>, category: string)
    ensures Filtered(Filtered(catalog, category), category) == Filtered(catalog, category)
  {
    if category != AllCategory {
      ByCategoryKeepsMatching(ByCategory(catalog, category), category);
    }
  }

  /** Every catalog entry is a "Tshirt" except the ninth, a "Hoodie". */
  lemma CatalogCategories()
    ensures |Products| == 12
    ensures forall i :: 0 <= i < |Products| && i != 8 ==> Products[i].category == "Tshirt"
    ensures Products[8].category == "Hoodie"
  {
  }

  /** No product carries "Bags", so that button shows an empty grid. */
  lemma BagsShowsNothing()
    ensures Filtered(Products, "Bags") == []
  {
    CatalogCategories();
    ByCategoryAbsent(Products, "Bags");
  }

  /** "Hoodie" shows exactly the one hoodie. */
  lemma HoodieShowsOnlyTheHoodie()
    ensures Filtered(Products, "Hoodie") == [Products[8]]
  {
    CatalogCategories();
    ByCategorySingleMatch(Products, 8, "Hoodie");
  }

  /** Catalog ids are 1..12 in order. */
  lemma CatalogIds()
    ensures forall i :: 0 <= i < |Products| ==> Products[i].id == i + 1
  {
  }

  /** Catalog ids are distinct. */
  lemma CatalogIdsDistinct()
    ensures forall i, j :: 0 <= i < j < |Products| ==> Products[i].id != Products[j].id
  {
    CatalogIds();
  }

  /** Every price is positive and at most 90. */
  lemma CatalogPrices()
    ensures forall i :: 0 <= i < |Products| ==> 0 < Products[i].price <= 90
  {
  }

  /** Every product's category has a button. */
  lemma CatalogCategoriesListed()
    ensures forall i :: 0 <= i < |Products| ==> Products[i].category in Categories
  {
  }

  // ---------------------------------------------------------------------
  // The detail overlay and its purchase gate

  datatype Colour = Black | Red

  /** Colour of the points figure: red when the balance is short. */
  function PointsColour(points: int, price: int): Colour
  {
    if points >= price then Black else Red
  }

  /** Whether Buy Now is rendered. */
  function ShowsBuyNow(points: int, price: int): bool
  {
    points >= price
  }

  /** The rendered overlay. */
  datatype Overlay = Overlay(product: Product, colour: Colour, buyNow: bool)

  /** The overlay shown for a selection: none for null, else the product with
      its two gates, which always agree. */
  function OverlayFor(selected: Option<Product>, points: int): (o: Option<Overlay>)
    ensures o.Some? <==> selected.Some?
    ensures o.Some? ==> o.value.product == selected.value
    ensures o.Some? ==> (o.value.buyNow <==> points >= selected.value.price)
    ensures o.Some? ==> (o.value.colour == Red <==> !o.value.buyNow)
  {
    match selected
    case None => None
    case Some(p) => Some(Overlay(p, PointsColour(points, p.price), ShowsBuyNow(points, p.price)))
  }

  /** With the fixed balance every catalog product can be bought. */
  lemma EveryProductAffordable()
    ensures forall p :: p in Products ==>
              OverlayFor(Some(p), UserPoints).value.buyNow &&
              OverlayFor(Some(p), UserPoints).value.colour == Black
  {
  }

  // ---------------------------------------------------------------------
  // The page component

  class StorePage {
    var selectedCategory: string
    var selectedProduct: Option<Product>

    ghost predicate Valid()
      reads this
    {
      && selectedCategory in Categories
      && (selectedProduct.Some? ==> selectedProduct.value in Products)
    }

    /** Mounting: "All" selected, no overlay. */
    constructor ()
      ensures Valid()
      ensures selectedCategory == AllCategory && selectedProduct == None
    {
      selectedCategory := AllCategory;
      selectedProduct := None;
    }

    /** The product grid. */
    function Visible(): (r: seq<Product>)
      reads this
      ensures forall p :: p in r ==> p in Products
    {
      Filtered(Products, selectedCategory)
    }

    /** The overlay, if open. Every product that can be open is a catalog
        product, so with the fixed balance the overlay always offers Buy Now
        and shows the points figure in black. */
    function Shown(): (m: Option<Overlay>)
      reads this
      requires Valid()
      ensures m.Some? <==> selectedProduct.Some?
      ensures m.Some? ==> m.value.product == selectedProduct.value
      ensures m.Some? ==> m.value.buyNow && m.value.colour == Black
    {
      EveryProductAffordable();
      OverlayFor(selectedProduct, UserPoints)
    }

    /** A category button's click. */
    method SelectCategory(category: string)
      requires Valid() && category in Categories
      modifies this
      ensures Valid()
      ensures selectedCategory == category && selectedProduct == old(selectedProduct)
    {
      selectedCategory := category;
    }

    /** `handleProductClick`, from a card in the grid. */
    method HandleProductClick(product: Product)
      requires Valid() && product in Visible()
      modifies this
      ensures Valid()
      ensures selectedProduct == Some(product) && selectedCategory == old(selectedCategory)
    {
      selectedProduct := Some(product);
    }

    /** `closeModal`. */
    method CloseModal()
      requires Valid()
      modifies this
      ensures Valid()
      ensures selectedProduct == None && selectedCategory == old(selectedCategory)
    {
      selectedProduct := None;
    }
  }
}
