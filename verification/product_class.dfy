/**
 * The ES class `Product` and the free function `sort`, which calls the
 * misspelt `toLowercase`. `search` is `Catalog.Search`; `new Review(...)`
 * is `Catalog.NewReview`. The members that model code the class gets
 * wrong state what it does; `ProductFunction` has the same code as meant.
 */
module ProductClass {
  import opened Js
  import opened Text
  import opened Catalog

  class Product {
    var ID: string
    var name: string
    var description: string
    var price: real
    var brand: string
    var sizes: JsArray<string>
    var activeSize: string
    var quantity: real
    var reviews: JsArray<Review>
    var images: JsArray<string>

    /** `new Product(ID, name, brand, price, activeSize, quantity)` with its default lists. */
    constructor(ID: string, name: string, brand: string, price: real, activeSize: string, quantity: real)
      ensures this.ID == ID && this.name == name && this.brand == brand && this.price == price
      ensures this.activeSize == activeSize && this.quantity == quantity
      ensures description == "no description"
      ensures fresh(sizes) && sizes.elems == ["XS", "S", "M", "L", "XL", "XXL"]
      ensures fresh(reviews) && reviews.elems == []
      ensures fresh(images) && images.elems == ["img1", "img2", "img3"] && images != sizes
    {
      this.ID := ID;
      this.name := name;
      description := "no description";
      this.price := price;
      this.brand := brand;
      sizes := new JsArray(["XS", "S", "M", "L", "XL", "XXL"]);
      this.activeSize := activeSize;
      this.quantity := quantity;
      reviews := new JsArray([]);
      images := new JsArray(["img1", "img2", "img3"]);
    }

    /** What `search` and `sort` read of this product. */
    function View(): (v: ProductView)
      reads this
      ensures v.ID == ID && v.name == name && v.description == description && v.price == price
    {
      ProductView(ID, name, description, price)
    }

    // Each setter changes its own field only and returns the product itself.

    method SetID(ID: string) returns (self: Product)
      modifies this`ID
      ensures this.ID == ID && self == this
    {
      this.ID := ID;
      self := this;
    }

    method SetName(name: string) returns (self: Product)
      modifies this`name
      ensures this.name == name && self == this
    {
      this.name := name;
      self := this;
    }

    method SetDescription(description: string) returns (self: Product)
      modifies this`description
      ensures this.description == description && self == this
    {
      this.description := description;
      self := this;
    }

    method SetPrice(price: real) returns (self: Product)
      modifies this`price
      ensures this.price == price && self == this
    {
      this.price := price;
      self := this;
    }

    /** `setbrand`, named in lower case in the class. */
    method Setbrand(brand: string) returns (self: Product)
      modifies this`brand
      ensures this.brand == brand && self == this
    {
      this.brand := brand;
      self := this;
    }

    /** Stores the caller's array itself: later pushes through either name are seen by both. */
    method SetSizes(sizes: JsArray<string>) returns (self: Product)
      modifies this`sizes
      ensures this.sizes == sizes && self == this
    {
      this.sizes := sizes;
      self := this;
    }

    method SetActiveSize(activeSize: string) returns (self: Product)
      modifies this`activeSize
      ensures this.activeSize == activeSize && self == this
    {
      this.activeSize := activeSize;
      self := this;
    }

    method SetQuantity(quantity: real) returns (self: Product)
      modifies this`quantity
      ensures this.quantity == quantity && self == this
    {
      this.quantity := quantity;
      self := this;
    }

    /** Stores the caller's array itself, as `SetSizes` does. */
    method SetReviews(reviews: JsArray<Review>) returns (self: Product)
      modifies this`reviews
      ensures this.reviews == reviews && self == this
    {
      this.reviews := reviews;
      self := this;
    }

    method SetImages(images: JsArray<string>) returns (self: Product)
      modifies this`images
      ensures this.images == images && self == this
    {
      this.images := images;
      self := this;
    }

    /** `getImage(image)`: by index, by name, or the first image. */
    function GetImage(key: ImageKey): (r: Option<string>)
      reads this, images
      ensures key.Number? ==> (r.Some? <==> IsIndex(key.n, |images.elems|))
      ensures key.Number? && r.Some? ==> r.value == images.elems[key.n.Floor]
      ensures key.Text? ==> (r.Some? <==> key.s in images.elems) && (r.Some? ==> r.value == key.s)
      ensures key.Other? ==> (r.Some? <==> |images.elems| > 0) && (r.Some? ==> r.value == images.elems[0])
    {
      ImageLookup(images.elems, key)
    }

    /** Pushes onto the sizes array in place: the field still names the same array. */
    method AddSize(size: string) returns (self: Product)
      modifies sizes
      ensures sizes.elems == old(sizes.elems) + [size] && self == this
    {
      sizes.Push(size);
      self := this;
    }

    /** Rebinds the field to a new array holding the sizes other than `size`. */
    method DeleteSize(size: string) returns (self: Product)
      modifies this`sizes
      ensures fresh(sizes) && sizes.elems == WithoutSize(old(sizes.elems), size) && self == this
    {
      sizes := new JsArray(WithoutSize(sizes.elems, size));
      self := this;
    }

    method AddReview(review: Review) returns (self: Product)
      modifies reviews
      ensures reviews.elems == old(reviews.elems) + [review] && self == this
    {
      reviews.Push(review);
      self := this;
    }

    method DeleteReview(ID: string) returns (self: Product)
      modifies this`reviews
      ensures fresh(reviews) && reviews.elems == WithoutReview(old(reviews.elems), ID) && self == this
    {
      reviews := new JsArray(WithoutReview(reviews.elems, ID));
      self := this;
    }

    /** `getReviewByID(ID)`: the first review with that ID, or `undefined`. */
    function GetReviewByID(ID: string): (r: Option<Review>)
      reads this, reviews
      ensures r.None? <==> forall i :: 0 <= i < |reviews.elems| ==> reviews.elems[i].ID != ID
      ensures r.Some? ==> exists i :: && 0 <= i < |reviews.elems| && reviews.elems[i] == r.value && r.value.ID == ID
                                      && forall j :: 0 <= j < i ==> reviews.elems[j].ID != ID
    {
      ReviewByID(reviews.elems, ID)
    }

    /**
     * `getAverageRating()`: the reduce over `#getProductRating`, which is 0
     * for every review, so the rating is 0 whatever the reviews say.
     */
    method GetAverageRating() returns (r: real)
      ensures r == 0.0
    {
      var list := reviews.elems;
      var rating := 0.0;
      for i := 0 to |list|
        invariant rating == 0.0
      {
        var score := GetProductRating(list[i].rating);
        rating := rating + score;
      }
      r := if |list| == 0 then 0.0 else rating / |list| as real;
    }
  }

  /**
   * The arrow function `isValidProperty` has a block body without `return`,
   * so every call yields `undefined` (`None`), whatever the property.
   */
  function IsValidProperty(property: (string, RatingValue)): Option<bool>
  {
    None
  }

  /** JavaScript truthiness of a boolean or `undefined`. */
  predicate Truthy(v: Option<bool>)
  {
    v.Some? && v.value
  }

  /**
   * `#getProductRating(rating)`: the `for...in` loop never counts a
   * property, so the result is always 0.
   */
  method GetProductRating(rating: seq<(string, RatingValue)>) returns (r: real)
    ensures r == 0.0
  {
    var sum, properties := 0.0, 0;
    for i := 0 to |rating|
      invariant sum == 0.0 && properties >= 0
    {
      var value := if rating[i].1.Num? then rating[i].1.value else 0.0;
      if Truthy(IsValidProperty(rating[i])) {
        sum := sum + value;
        properties := properties + 1;
      }
    }
    r := if properties != 0 then sum / properties as real else 0.0;
  }

  /** The rating as written differs from the rating meant whenever the latter is not 0. */
  lemma RatingMeantExample()
    ensures AverageRating([NewReview("r1", "Ann", "good", Num(4.0), Num(4.0), Num(4.0), Num(4.0))]) == 4.0
  {
    NewReviewScore("r1", "Ann", "good", 4.0, 4.0, 4.0, 4.0);
    var rs := [NewReview("r1", "Ann", "good", Num(4.0), Num(4.0), Num(4.0), Num(4.0))];
    assert Scores(rs) == [4.0];
    assert [4.0][..0] == [];
  }

  /**
   * `sort(products, sortRule)`: after the copy, `sortRule.toLowercase` is
   * `undefined`, and calling it throws a TypeError for every string rule.
   */
  method Sort(products: JsArray<ProductView>, sortRule: string) returns (r: Result<JsArray<ProductView>>)
    ensures r == Throw(TypeError("sortRule.toLowercase is not a function"))
  {
    var sortProducts := new JsArray(products.elems);
    r := Throw(TypeError("sortRule.toLowercase is not a function"));
  }

  /**
   * The case table of `sort` with the method name corrected: the second
   * case is spelt "Iddown", which no lower-cased rule equals.
   */
  function ParseRuleAsWritten(rule: string): (r: Option<(SortKey, Direction)>)
    ensures r == Some((ByID, Down)) ==> Lower(rule) == "Iddown"
    ensures r.Some? && r.value != (ByID, Down) ==> Lower(rule) == RuleName(r.value.0, r.value.1)
    ensures r.None? ==> forall key, dir :: (key, dir) != (ByID, Down) ==> Lower(rule) != RuleName(key, dir)
  {
    var l := Lower(rule);
    if l == "idup" then Some((ByID, Up))
    else if l == "Iddown" then Some((ByID, Down))
    else if l == "priceup" then Some((ByPrice, Up))
    else if l == "pricedown" then Some((ByPrice, Down))
    else if l == "nameup" then Some((ByName, Up))
    else if l == "namedown" then Some((ByName, Down))
    else None
  }

  /**
   * Even with `toLowerCase`, the table as written never sorts by ID down:
   * such rules fall to the default and return the input; every other rule
   * is parsed as in `Catalog.ParseRule`.
   */
  lemma IddownUnreachable(rule: string)
    ensures ParseRuleAsWritten(rule) != Some((ByID, Down))
    ensures ParseRuleAsWritten(rule) == if ParseRule(rule) == Some((ByID, Down)) then None else ParseRule(rule)
  {
    var l := Lower(rule);
    if |l| == 6 {
      assert l[0] != 'I';
    }
    assert l != "Iddown";
  }
}
