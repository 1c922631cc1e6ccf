/**
 * The prototype chain `AbstractProduct` <- `Clothes`, `Electronics`, and
 * the free function `sort` taking a `{sort, rule}` object. A subclass
 * object holds its `AbstractProduct` part as `base`; the
 * `AbstractProduct.call(this, ...)` in each subclass constructor is the
 * construction of that part.
 */
module OopPrototype {
  import opened Js
  import opened Catalog
  import opened Sorting

  /** The function `new` was applied to, as `this.constructor` reports it. */
  datatype ConstructorKind = AbstractProductKind | ClothesKind | ElectronicsKind

  const AbstractMessage := "Cannot instantiate abstract class"

  class AbstractProduct {
    var ID: string
    var name: string
    var description: string
    var price: real
    var brand: string
    var quantity: real
    var reviews: JsArray<Review>
    var images: JsArray<string>

    /** The field initialisation that follows the guard. */
    constructor(ID: string, name: string, brand: string, price: real, quantity: real)
      ensures this.ID == ID && this.name == name && this.brand == brand
      ensures this.price == price && this.quantity == quantity
      ensures description == "no description"
      ensures fresh(reviews) && reviews.elems == []
      ensures fresh(images) && images.elems == ["img1", "img2", "img3"]
    {
      this.ID := ID;
      this.name := name;
      description := "no description";
      this.price := price;
      this.brand := brand;
      this.quantity := quantity;
      reviews := new JsArray([]);
      images := new JsArray(["img1", "img2", "img3"]);
    }

    method SetID(ID: string) returns (self: AbstractProduct)
      modifies this`ID
      ensures this.ID == ID && self == this
    {
      this.ID := ID;
      self := this;
    }

    method SetName(name: string) returns (self: AbstractProduct)
      modifies this`name
      ensures this.name == name && self == this
    {
      this.name := name;
      self := this;
    }

    method SetDescription(description: string) returns (self: AbstractProduct)
      modifies this`description
      ensures this.description == description && self == this
    {
      this.description := description;
      self := this;
    }

    method SetPrice(price: real) returns (self: AbstractProduct)
      modifies this`price
      ensures this.price == price && self == this
    {
      this.price := price;
      self := this;
    }

    method SetBrand(brand: string) returns (self: AbstractProduct)
      modifies this`brand
      ensures this.brand == brand && self == this
    {
      this.brand := brand;
      self := this;
    }

    method SetQuantity(quantity: real) returns (self: AbstractProduct)
      modifies this`quantity
      ensures this.quantity == quantity && self == this
    {
      this.quantity := quantity;
      self := this;
    }

    /** Stores the caller's array itself. */
    method SetReviews(reviews: JsArray<Review>) returns (self: AbstractProduct)
      modifies this`reviews
      ensures this.reviews == reviews && self == this
    {
      this.reviews := reviews;
      self := this;
    }

    method SetImages(images: JsArray<string>) returns (self: AbstractProduct)
      modifies this`images
      ensures this.images == images && self == this
    {
      this.images := images;
      self := this;
    }

    /** `getImage(image)`: by index, by name, or the first image. */
    function GetImage(key: ImageKey): (r: Option<string>)
      reads this, images
      ensures key.Number? ==> (r.Some? <==> IsIndex(key.n, |images.elems|))
      ensures key.Number? && r.Some? ==> r.value == images.elems[key.n.Floor]
      ensures key.Text? ==> (r.Some? <==> key.s in images.elems) && (r.Some? ==> r.value == key.s)
      ensures key.Other? ==> (r.Some? <==> |images.elems| > 0) && (r.Some? ==> r.value == images.elems[0])
    {
      ImageLookup(images.elems, key)
    }

    method AddReview(review: Review) returns (self: AbstractProduct)
      modifies reviews
      ensures reviews.elems == old(reviews.elems) + [review] && self == this
    {
      reviews.Push(review);
      self := this;
    }

    method DeleteReview(ID: string) returns (self: AbstractProduct)
      modifies this`reviews
      ensures fresh(reviews) && reviews.elems == WithoutReview(old(reviews.elems), ID) && self == this
    {
      reviews := new JsArray(WithoutReview(reviews.elems, ID));
      self := this;
    }

    /** `getReviewByID(ID)`: the first review with that ID, or `undefined`. */
    function GetReviewByID(ID: string): (r: Option<Review>)
      reads this, reviews
      ensures r.None? <==> forall i :: 0 <= i < |reviews.elems| ==> reviews.elems[i].ID != ID
      ensures r.Some? ==> exists i :: && 0 <= i < |reviews.elems| && reviews.elems[i] == r.value && r.value.ID == ID
                                      && forall j :: 0 <= j < i ==> reviews.elems[j].ID != ID
    {
      ReviewByID(reviews.elems, ID)
    }

    /**
     * `getAverageRating()` as written: the reduce result is discarded and
     * the return expression reads the undeclared name `rating`, which in
     * strict mode is a ReferenceError whenever there is a review.
     */
    function GetAverageRating(): (r: Result<real>)
      reads this, reviews
      ensures r == Ok(0.0) <==> |reviews.elems| == 0
      ensures r.Throw? <==> |reviews.elems| > 0
      ensures r.Throw? ==> r.error.ReferenceError?
    {
      if |reviews.elems| == 0 then Ok(0.0) else Throw(ReferenceError("rating is not defined"))
    }
  }

  /**
   * `new AbstractProduct(...)`: the guard throws when `AbstractProduct`
   * itself is the constructor, and lets a subclass through.
   */
  method NewAbstractProduct(kind: ConstructorKind, ID: string, name: string, brand: string, price: real, quantity: real)
    returns (r: Result<AbstractProduct>)
    ensures r.Throw? <==> kind == AbstractProductKind
    ensures r.Throw? ==> r.error == Error(AbstractMessage)
    ensures r.Ok? ==> fresh(r.value) && r.value.ID == ID && r.value.name == name && r.value.brand == brand
                      && r.value.price == price && r.value.quantity == quantity
                      && r.value.description == "no description"
                      && fresh(r.value.reviews) && r.value.reviews.elems == []
                      && fresh(r.value.images) && r.value.images.elems == ["img1", "img2", "img3"]
  {
    if kind == AbstractProductKind {
      return Throw(Error(AbstractMessage));
    }
    var p := new AbstractProduct(ID, name, brand, price, quantity);
    r := Ok(p);
  }

  class Clothes {
    const base: AbstractProduct
    var sizes: JsArray<string>
    var activeSize: string
    var material: string
    var color: string

    constructor(ID: string, name: string, brand: string, price: real, quantity: real,
                activeSize: string, material: string, color: string)
      ensures fresh(base) && base.ID == ID && base.name == name && base.brand == brand
      ensures base.price == price && base.quantity == quantity && base.description == "no description"
      ensures fresh(base.reviews) && base.reviews.elems == []
      ensures fresh(base.images) && base.images.elems == ["img1", "img2", "img3"]
      ensures fresh(sizes) && sizes.elems == ["XS", "S", "M", "L", "XL", "XXL"] && sizes != base.images
      ensures this.activeSize == activeSize && this.material == material && this.color == color
    {
      base := new AbstractProduct(ID, name, brand, price, quantity);
      sizes := new JsArray(["XS", "S", "M", "L", "XL", "XXL"]);
      this.activeSize := activeSize;
      this.material := material;
      this.color := color;
    }

    method SetSizes(sizes: JsArray<string>) returns (self: Clothes)
      modifies this`sizes
      ensures this.sizes == sizes && self == this
    {
      this.sizes := sizes;
      self := this;
    }

    method SetActiveSize(activeSize: string) returns (self: Clothes)
      modifies this`activeSize
      ensures this.activeSize == activeSize && self == this
    {
      this.activeSize := activeSize;
      self := this;
    }

    method AddSize(size: string) returns (self: Clothes)
      modifies sizes
      ensures sizes.elems == old(sizes.elems) + [size] && self == this
    {
      sizes.Push(size);
      self := this;
    }

    method DeleteSize(size: string) returns (self: Clothes)
      modifies this`sizes
      ensures fresh(sizes) && sizes.elems == WithoutSize(old(sizes.elems), size) && self == this
    {
      sizes := new JsArray(WithoutSize(sizes.elems, size));
      self := this;
    }

    method SetMaterial(material: string) returns (self: Clothes)
      modifies this`material
      ensures this.material == material && self == this
    {
      this.material := material;
      self := this;
    }

    method SetColor(color: string) returns (self: Clothes)
      modifies this`color
      ensures this.color == color && self == this
    {
      this.color := color;
      self := this;
    }
  }

  class Electronics {
    const base: AbstractProduct
    var warranty: real
    var power: real

    constructor(ID: string, name: string, brand: string, price: real, quantity: real, warranty: real, power: real)
      ensures fresh(base) && base.ID == ID && base.name == name && base.brand == brand
      ensures base.price == price && base.quantity == quantity && base.description == "no description"
      ensures fresh(base.reviews) && base.reviews.elems == []
      ensures fresh(base.images) && base.images.elems == ["img1", "img2", "img3"]
      ensures this.warranty == warranty && this.power == power
    {
      base := new AbstractProduct(ID, name, brand, price, quantity);
      this.warranty := warranty;
      this.power := power;
    }

    method SetWarranty(warranty: real) returns (self: Electronics)
      modifies this`warranty
      ensures this.warranty == warranty && self == this
    {
      this.warranty := warranty;
      self := this;
    }

    method SetPower(power: real) returns (self: Electronics)
      modifies this`power
      ensures this.power == power && self == this
    {
      this.power := power;
      self := this;
    }
  }

  // ---------------------------------------------------------------------
  // The rating the method evidently meant to return
  // ---------------------------------------------------------------------

  /** `Object.values(rating)` when every value is a number; `None` otherwise. */
  function Values(rating: seq<(string, RatingValue)>): (r: Option<seq<real>>)
    ensures r.Some? <==> forall i :: 0 <= i < |rating| ==> rating[i].1.Num?
    ensures r.Some? ==> |r.value| == |rating|
  {
    if rating == [] then Some([])
    else
      var last := rating[|rating| - 1].1;
      match Values(rating[..|rating| - 1])
      case None => None
      case Some(vs) => if last.Num? then Some(vs + [last.value]) else None
  }

  /** `getReviewRating`: the mean of all the rating's values, or 0 when it has none. */
  function ReviewRating(rating: seq<(string, RatingValue)>): Option<real>
  {
    match Values(rating)
    case None => None
    case Some(vs) => Some(Mean(vs))
  }

  /**
   * The average with the reduce result bound to `rating`; `None` when a
   * rating value is not a number, which the model does not follow into
   * JavaScript's addition.
   */
  function AverageRatingFixed(reviews: seq<Review>): (r: Option<real>)
    ensures |reviews| == 0 ==> r == Some(0.0)
  {
    if |reviews| == 0 then Some(0.0)
    else match RatingSum(reviews)
      case None => None
      case Some(total) => Some(total / |reviews| as real)
  }

  /** The reduce over the reviews, adding up each review's rating. */
  function RatingSum(reviews: seq<Review>): Option<real>
  {
    if reviews == [] then Some(0.0)
    else match (RatingSum(reviews[..|reviews| - 1]), ReviewRating(reviews[|reviews| - 1].rating))
      case (Some(acc), Some(x)) => Some(acc + x)
      case _ => None
  }

  /** Every value of a rating is a number. */
  predicate NumericRating(rating: seq<(string, RatingValue)>)
  {
    forall i :: 0 <= i < |rating| ==> rating[i].1.Num?
  }

  /** Every rating value of every review is a number. */
  predicate AllNumeric(reviews: seq<Review>)
  {
    forall k :: 0 <= k < |reviews| ==> NumericRating(reviews[k].rating)
  }

  lemma {:induction false} ValuesAreNumericValues(rating: seq<(string, RatingValue)>)
    requires NumericRating(rating)
    ensures Values(rating) == Some(NumericValues(rating))
  {
    if rating != [] {
      ValuesAreNumericValues(rating[..|rating| - 1]);
    }
  }

  lemma {:induction false} RatingSumIsSumOfScores(reviews: seq<Review>)
    requires AllNumeric(reviews)
    ensures RatingSum(reviews) == Some(Sum(Scores(reviews)))
  {
    if reviews != [] {
      var init := reviews[..|reviews| - 1];
      var last := reviews[|reviews| - 1];
      AllNumericParts(reviews);
      RatingSumIsSumOfScores(init);
      ValuesAreNumericValues(last.rating);
      var score := ReviewScore(last);
      assert ReviewRating(last.rating) == Some(score);
      assert RatingSum(reviews) == Some(Sum(Scores(init)) + score);
      assert Scores(reviews) == Scores(init) + [score];
      SumSnoc(Scores(init), score);
    }
  }

  lemma AllNumericParts(reviews: seq<Review>)
    requires reviews != [] && AllNumeric(reviews)
    ensures AllNumeric(reviews[..|reviews| - 1])
    ensures NumericRating(reviews[|reviews| - 1].rating)
  {
  }

  /**
   * With only numeric rating values the fixed method computes exactly the
   * rating of the other two implementations.
   */
  lemma AverageRatingFixedAgrees(reviews: seq<Review>)
    requires AllNumeric(reviews)
    ensures AverageRatingFixed(reviews) == Some(AverageRating(reviews))
  {
    RatingSumIsSumOfScores(reviews);
  }

  /** The method as written and the fixed one part ways on every product that has a review. */
  lemma RatingDiscrepancy(p: AbstractProduct)
    requires |p.reviews.elems| > 0 && AllNumeric(p.reviews.elems)
    ensures p.GetAverageRating().Throw?
    ensures AverageRatingFixed(p.reviews.elems) == Some(AverageRating(p.reviews.elems))
  {
    AverageRatingFixedAgrees(p.reviews.elems);
  }

  // ---------------------------------------------------------------------
  // sort(products, {sort, rule})
  // ---------------------------------------------------------------------

  /** The `sortRule` object: the property to sort by and the direction word. */
  datatype SortRuleObject = SortRuleObject(sort: string, rule: string)

  /** Which key a `{sort, rule}` object selects, and in which direction: any rule but "up" sorts down. */
  function RuleOf(sortRule: SortRuleObject): (r: Option<(SortKey, Direction)>)
    ensures r.Some? <==> sortRule.sort in {"price", "ID", "name"}
    ensures r.Some? ==> (r.value.1 == Up <==> sortRule.rule == "up")
    ensures r.Some? ==> r.value.0 == (if sortRule.sort == "price" then ByPrice
                                     else if sortRule.sort == "ID" then ByID else ByName)
  {
    var dir := if sortRule.rule == "up" then Up else Down;
    if sortRule.sort == "price" then Some((ByPrice, dir))
    else if sortRule.sort == "ID" then Some((ByID, dir))
    else if sortRule.sort == "name" then Some((ByName, dir))
    else None
  }

  /**
   * `sort(products, sortRule)`: a known property sorts a spread copy; any
   * other returns the input array itself. The input is never reordered.
   */
  method Sort(products: JsArray<ProductView>, sortRule: SortRuleObject, collate: (string, string) -> real)
    returns (r: JsArray<ProductView>)
    ensures RuleOf(sortRule).None? ==> r == products
    ensures RuleOf(sortRule).Some? ==>
              && fresh(r)
              && r.elems == SortProducts(products.elems, RuleOf(sortRule).value.0, RuleOf(sortRule).value.1, collate)
  {
    match RuleOf(sortRule)
    case None =>
      r := products;
    case Some((key, dir)) =>
      r := new JsArray(products.elems);
      SortArray(r, Comparator(key, dir, collate));
  }

  /** A misspelt direction such as "Up" sorts down. */
  lemma AnyOtherRuleSortsDown()
    ensures RuleOf(SortRuleObject("price", "Up")) == Some((ByPrice, Down))
  {
  }
}
