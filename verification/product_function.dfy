/**
 * The constructor-function `Product` with methods on its prototype, and
 * the free function `sort` taking a case-insensitive rule string.
 * `search` is `Catalog.Search`; `new Review(...)` is `Catalog.NewReview`.
 */
module ProductFunction {
  import opened Js
  import opened Catalog
  import opened Sorting

  class Product {
    var ID: string
    var name: string
    var description: string
    var price: real
    var brand: string
    var sizes: JsArray<string>
    var activeSize: string
    var quantity: real
    var reviews: JsArray<Review>
    var images: JsArray<string>

    /** `new Product(ID, name, brand, price, activeSize, quantity)` with its default lists. */
    constructor(ID: string, name: string, brand: string, price: real, activeSize: string, quantity: real)
      ensures this.ID == ID && this.name == name && this.brand == brand && this.price == price
      ensures this.activeSize == activeSize && this.quantity == quantity
      ensures description == "no description"
      ensures fresh(sizes) && sizes.elems == ["XS", "S", "M", "L", "XL", "XXL"]
      ensures fresh(reviews) && reviews.elems == []
      ensures fresh(images) && images.elems == ["img1", "img2", "img3"] && images != sizes
    {
      this.ID := ID;
      this.name := name;
      description := "no description";
      this.price := price;
      this.brand := brand;
      sizes := new JsArray(["XS", "S", "M", "L", "XL", "XXL"]);
      this.activeSize := activeSize;
      this.quantity := quantity;
      reviews := new JsArray([]);
      images := new JsArray(["img1", "img2", "img3"]);
    }

    /** What `search` and `sort` read of this product. */
    function View(): (v: ProductView)
      reads this
      ensures v.ID == ID && v.name == name && v.description == description && v.price == price
    {
      ProductView(ID, name, description, price)
    }

    // Each setter changes its own field only and returns the product itself.

    method SetID(ID: string) returns (self: Product)
      modifies this`ID
      ensures this.ID == ID && self == this
    {
      this.ID := ID;
      self := this;
    }

    method SetName(name: string) returns (self: Product)
      modifies this`name
      ensures this.name == name && self == this
    {
      this.name := name;
      self := this;
    }

    method SetDescription(description: string) returns (self: Product)
      modifies this`description
      ensures this.description == description && self == this
    {
      this.description := description;
      self := this;
    }

    method SetPrice(price: real) returns (self: Product)
      modifies this`price
      ensures this.price == price && self == this
    {
      this.price := price;
      self := this;
    }

    method SetBrand(brand: string) returns (self: Product)
      modifies this`brand
      ensures this.brand == brand && self == this
    {
      this.brand := brand;
      self := this;
    }

    /** Stores the caller's array itself: later pushes through either name are seen by both. */
    method SetSizes(sizes: JsArray<string>) returns (self: Product)
      modifies this`sizes
      ensures this.sizes == sizes && self == this
    {
      this.sizes := sizes;
      self := this;
    }

    method SetActiveSize(activeSize: string) returns (self: Product)
      modifies this`activeSize
      ensures this.activeSize == activeSize && self == this
    {
      this.activeSize := activeSize;
      self := this;
    }

    method SetQuantity(quantity: real) returns (self: Product)
      modifies this`quantity
      ensures this.quantity == quantity && self == this
    {
      this.quantity := quantity;
      self := this;
    }

    /** Stores the caller's array itself, as `SetSizes` does. */
    method SetReviews(reviews: JsArray<Review>) returns (self: Product)
      modifies this`reviews
      ensures this.reviews == reviews && self == this
    {
      this.reviews := reviews;
      self := this;
    }

    method SetImages(images: JsArray<string>) returns (self: Product)
      modifies this`images
      ensures this.images == images && self == this
    {
      this.images := images;
      self := this;
    }

    /** `getImage(image)`: by index, by name, or the first image. */
    function GetImage(key: ImageKey): (r: Option<string>)
      reads this, images
      ensures key.Number? ==> (r.Some? <==> IsIndex(key.n, |images.elems|))
      ensures key.Number? && r.Some? ==> r.value == images.elems[key.n.Floor]
      ensures key.Text? ==> (r.Some? <==> key.s in images.elems) && (r.Some? ==> r.value == key.s)
      ensures key.Other? ==> (r.Some? <==> |images.elems| > 0) && (r.Some? ==> r.value == images.elems[0])
    {
      ImageLookup(images.elems, key)
    }

    /** Pushes onto the sizes array in place: the field still names the same array. */
    method AddSize(size: string) returns (self: Product)
      modifies sizes
      ensures sizes.elems == old(sizes.elems) + [size] && self == this
    {
      sizes.Push(size);
      self := this;
    }

    /** Rebinds the field to a new array holding the sizes other than `size`. */
    method DeleteSize(size: string) returns (self: Product)
      modifies this`sizes
      ensures fresh(sizes) && sizes.elems == WithoutSize(old(sizes.elems), size) && self == this
    {
      sizes := new JsArray(WithoutSize(sizes.elems, size));
      self := this;
    }

    method AddReview(review: Review) returns (self: Product)
      modifies reviews
      ensures reviews.elems == old(reviews.elems) + [review] && self == this
    {
      reviews.Push(review);
      self := this;
    }

    method DeleteReview(ID: string) returns (self: Product)
      modifies this`reviews
      ensures fresh(reviews) && reviews.elems == WithoutReview(old(reviews.elems), ID) && self == this
    {
      reviews := new JsArray(WithoutReview(reviews.elems, ID));
      self := this;
    }

    /** `getReviewByID(ID)`: the first review with that ID, or `undefined`. */
    function GetReviewByID(ID: string): (r: Option<Review>)
      reads this, reviews
      ensures r.None? <==> forall i :: 0 <= i < |reviews.elems| ==> reviews.elems[i].ID != ID
      ensures r.Some? ==> exists i :: && 0 <= i < |reviews.elems| && reviews.elems[i] == r.value && r.value.ID == ID
                                      && forall j :: 0 <= j < i ==> reviews.elems[j].ID != ID
    {
      ReviewByID(reviews.elems, ID)
    }

    /** The reduce over the reviews, then the division by their number. */
    method GetAverageRating() returns (r: real)
      ensures r == AverageRating(reviews.elems)
    {
      var list := reviews.elems;
      var rating := 0.0;
      for i := 0 to |list|
        invariant rating == Sum(Scores(list[..i]))
      {
        var score := SumObjectProperties(list[i].rating);
        SumSnoc(Scores(list[..i]), score);
        assert Scores(list[..i + 1]) == Scores(list[..i]) + [score];
        rating := rating + score;
      }
      assert list[..|list|] == list;
      r := if |list| == 0 then 0.0 else rating / |list| as real;
    }
  }

  /**
   * `sumObjectProperties(rating)`: the `for...in` loop adding up the own
   * properties whose value is a number, then their mean, or 0 when none.
   */
  method SumObjectProperties(rating: seq<(string, RatingValue)>) returns (r: real)
    ensures r == Mean(NumericValues(rating))
  {
    var sum, properties := 0.0, 0;
    for i := 0 to |rating|
      invariant sum == Sum(NumericValues(rating[..i]))
      invariant properties == |NumericValues(rating[..i])|
    {
      ghost var before := NumericValues(rating[..i]);
      assert rating[..i + 1] == rating[..i] + [rating[i]];
      NumericValuesSnoc(rating[..i], rating[i]);
      if rating[i].1.Num? {
        SumSnoc(before, rating[i].1.value);
        sum := sum + rating[i].1.value;
        properties := properties + 1;
      } else {
        assert NumericValues(rating[..i + 1]) == before;
      }
    }
    assert rating[..|rating|] == rating;
    ghost var xs := NumericValues(rating);
    assert sum == Sum(xs) && properties == |xs|;
    r := if properties != 0 then sum / properties as real else 0.0;
  }

  /**
   * `sort(products, sortRule)`: a known rule sorts a new copy (the input
   * array is not reordered); any other rule returns the input array itself.
   */
  method Sort(products: JsArray<ProductView>, sortRule: string, collate: (string, string) -> real)
    returns (r: JsArray<ProductView>)
    ensures ParseRule(sortRule).None? ==> r == products
    ensures ParseRule(sortRule).Some? ==>
              && fresh(r)
              && r.elems == SortProducts(products.elems, ParseRule(sortRule).value.0, ParseRule(sortRule).value.1, collate)
  {
    var sortProducts := new JsArray(products.elems);
    match ParseRule(sortRule)
    case None =>
      r := products;
    case Some((key, dir)) =>
      SortArray(sortProducts, Comparator(key, dir, collate));
      r := sortProducts;
  }

  /**
   * Two products given the same reviews array share it: a review added
   * through one is seen through the other, until a delete gives the
   * deleting product an array of its own.
   */
  method SharedReviews(p: Product, q: Product, list: JsArray<Review>, review: Review)
    modifies p, q, list
    ensures p.reviews == q.reviews == list
    ensures list.elems == old(list.elems) + [review]
    ensures q.GetReviewByID(review.ID).Some?
  {
    var self := p.SetReviews(list);
    self := q.SetReviews(list);
    self := p.AddReview(review);
    assert q.reviews.elems[|q.reviews.elems| - 1].ID == review.ID;
  }

  method DeleteDetaches(p: Product, q: Product, ID: string)
    requires p != q && p.reviews == q.reviews
    modifies p
    ensures fresh(p.reviews) && p.reviews != q.reviews
    ensures q.reviews.elems == old(q.reviews.elems)
    ensures p.GetReviewByID(ID).None?
  {
    var self := p.DeleteReview(ID);
  }
}
