/**
 * What the three product implementations share: reviews and the two-level
 * rating average, the list operations on reviews, sizes and images, the
 * image lookup, and the free functions `search` and `sort` over products.
 */
module Catalog {
  import opened Js
  import opened Text
  import opened Lists
  import opened Sorting

  // ---------------------------------------------------------------------
  // Reviews and ratings
  // ---------------------------------------------------------------------

  /** The value of a rating property: a number, or anything whose `typeof` is not "number". */
  datatype RatingValue = Num(value: real) | NotNum

  /**
   * A review without its creation date. `rating` lists the own enumerable
   * properties of the rating object in `for...in` order.
   */
  datatype Review = Review(ID: string, author: string, comment: string, rating: seq<(string, RatingValue)>)

  /** `new Review(ID, author, comment, service, price, value, quality)`. */
  function NewReview(ID: string, author: string, comment: string, service: RatingValue,
                     price: RatingValue, value: RatingValue, quality: RatingValue): (r: Review)
    ensures r.ID == ID && r.author == author && r.comment == comment
    ensures |r.rating| == 4
    ensures r.rating[0].0 == "service" && r.rating[1].0 == "price"
    ensures r.rating[2].0 == "value" && r.rating[3].0 == "quality"
    ensures r.rating[0].1 == service && r.rating[1].1 == price
    ensures r.rating[2].1 == value && r.rating[3].1 == quality
  {
    Review(ID, author, comment, [("service", service), ("price", price), ("value", value), ("quality", quality)])
  }

  /** The numeric values among the rating properties, in order. */
  function NumericValues(rating: seq<(string, RatingValue)>): (xs: seq<real>)
    ensures |xs| <= |rating|
  {
    if rating == [] then []
    else
      var last := rating[|rating| - 1].1;
      NumericValues(rating[..|rating| - 1]) + (if last.Num? then [last.value] else [])
  }

  lemma NumericValuesSnoc(rating: seq<(string, RatingValue)>, p: (string, RatingValue))
    ensures NumericValues(rating + [p]) == NumericValues(rating) + (if p.1.Num? then [p.1.value] else [])
  {
    assert (rating + [p])[..|rating|] == rating;
  }

  function Sum(xs: seq<real>): real
  {
    if xs == [] then 0.0 else Sum(xs[..|xs| - 1]) + xs[|xs| - 1]
  }

  lemma SumSnoc(xs: seq<real>, x: real)
    ensures Sum(xs + [x]) == Sum(xs) + x
  {
    assert (xs + [x])[..|xs|] == xs;
  }

  lemma {:induction false} SumAppend(xs: seq<real>, ys: seq<real>)
    ensures Sum(xs + ys) == Sum(xs) + Sum(ys)
  {
    if ys != [] {
      assert (xs + ys)[..|xs + ys| - 1] == xs + ys[..|ys| - 1];
      SumAppend(xs, ys[..|ys| - 1]);
    } else {
      assert xs + ys == xs;
    }
  }

  /** The arithmetic mean, or 0 when there is nothing to average. */
  function Mean(xs: seq<real>): real
  {
    if |xs| == 0 then 0.0 else Sum(xs) / |xs| as real
  }

  /** The score of one review: the mean of its numeric rating properties, or 0. */
  function ReviewScore(r: Review): real
  {
    Mean(NumericValues(r.rating))
  }

  /** The score of every review, in order. */
  function Scores(reviews: seq<Review>): (xs: seq<real>)
    ensures |xs| == |reviews|
    ensures forall i :: 0 <= i < |reviews| ==> xs[i] == ReviewScore(reviews[i])
  {
    if reviews == [] then [] else Scores(reviews[..|reviews| - 1]) + [ReviewScore(reviews[|reviews| - 1])]
  }

  /** The product rating: the mean of the review scores, or 0 without reviews. */
  function AverageRating(reviews: seq<Review>): (r: real)
    ensures reviews == [] ==> r == 0.0
    ensures reviews != [] ==> r == Sum(Scores(reviews)) / |reviews| as real
  {
    Mean(Scores(reviews))
  }

  lemma {:induction false} SumBounds(xs: seq<real>, lo: real, hi: real)
    requires forall i :: 0 <= i < |xs| ==> lo <= xs[i] <= hi
    ensures lo * |xs| as real <= Sum(xs) <= hi * |xs| as real
  {
    if xs != [] {
      SumBounds(xs[..|xs| - 1], lo, hi);
    }
  }

  lemma MeanBounds(xs: seq<real>, lo: real, hi: real)
    requires |xs| > 0
    requires forall i :: 0 <= i < |xs| ==> lo <= xs[i] <= hi
    ensures lo <= Mean(xs) <= hi
  {
    SumBounds(xs, lo, hi);
    var n := |xs| as real;
    assert Mean(xs) * n == Sum(xs);
  }

  lemma {:induction false} NumericValuesBounded(rating: seq<(string, RatingValue)>, lo: real, hi: real)
    requires forall i :: 0 <= i < |rating| && rating[i].1.Num? ==> lo <= rating[i].1.value <= hi
    ensures forall i :: 0 <= i < |NumericValues(rating)| ==> lo <= NumericValues(rating)[i] <= hi
  {
    if rating != [] {
      NumericValuesBounded(rating[..|rating| - 1], lo, hi);
    }
  }

  /** Every numeric rating property in `[lo, hi]` keeps the product rating in that range, widened to 0. */
  lemma AverageRatingBounds(reviews: seq<Review>, lo: real, hi: real)
    requires lo <= hi
    requires forall k, i :: 0 <= k < |reviews| && 0 <= i < |reviews[k].rating| && reviews[k].rating[i].1.Num?
               ==> lo <= reviews[k].rating[i].1.value <= hi
    ensures (if lo < 0.0 then lo else 0.0) <= AverageRating(reviews) <= (if hi > 0.0 then hi else 0.0)
  {
    var lo', hi' := if lo < 0.0 then lo else 0.0, if hi > 0.0 then hi else 0.0;
    var xs := Scores(reviews);
    forall k | 0 <= k < |reviews|
      ensures lo' <= xs[k] <= hi'
    {
      var vs := NumericValues(reviews[k].rating);
      NumericValuesBounded(reviews[k].rating, lo, hi);
      if |vs| > 0 {
        MeanBounds(vs, lo, hi);
      }
    }
    if |xs| > 0 {
      MeanBounds(xs, lo', hi');
    }
  }

  /** A review without a numeric rating property scores 0. */
  lemma {:induction false} NoNumbersScoreZero(r: Review)
    requires forall i :: 0 <= i < |r.rating| ==> r.rating[i].1.NotNum?
    ensures ReviewScore(r) == 0.0
  {
    NoNumericValues(r.rating);
  }

  lemma {:induction false} NoNumericValues(rating: seq<(string, RatingValue)>)
    requires forall i :: 0 <= i < |rating| ==> rating[i].1.NotNum?
    ensures NumericValues(rating) == []
  {
    if rating != [] {
      NoNumericValues(rating[..|rating| - 1]);
    }
  }

  /** A property that is not a number does not change a review's score. */
  lemma NotNumIgnored(r: Review, key: string)
    ensures ReviewScore(r.(rating := r.rating + [(key, NotNum)])) == ReviewScore(r)
  {
    var s := r.rating + [(key, NotNum)];
    assert s[..|s| - 1] == r.rating;
    assert NumericValues(s) == NumericValues(r.rating) + [];
    assert NumericValues(s) == NumericValues(r.rating);
    var r' := r.(rating := s);
    assert ReviewScore(r') == Mean(NumericValues(s));
  }

  /** A review made by `new Review` with four numbers scores their mean. */
  lemma NewReviewScore(ID: string, author: string, comment: string, a: real, b: real, c: real, d: real)
    ensures ReviewScore(NewReview(ID, author, comment, Num(a), Num(b), Num(c), Num(d))) == (a + b + c + d) / 4.0
  {
    var rating := NewReview(ID, author, comment, Num(a), Num(b), Num(c), Num(d)).rating;
    assert rating[..1][..0] == [];
    assert NumericValues(rating[..1]) == [a];
    assert rating[..2][..1] == rating[..1];
    assert NumericValues(rating[..2]) == [a, b];
    assert rating[..3][..2] == rating[..2];
    assert NumericValues(rating[..3]) == [a, b, c];
    assert rating[..3] == rating[..|rating| - 1];
    assert NumericValues(rating) == [a, b, c, d];
    var xs := [a, b, c, d];
    assert xs[..1][..0] == [];
    assert Sum(xs[..1]) == a;
    assert xs[..2][..1] == xs[..1];
    assert Sum(xs[..2]) == a + b;
    assert xs[..3][..2] == xs[..2];
    assert Sum(xs[..3]) == a + b + c;
    assert xs[..3] == xs[..|xs| - 1];
    assert Sum(xs) == a + b + c + d;
  }

  lemma ScoresAppend(a: seq<Review>, b: seq<Review>)
    ensures Scores(a + b) == Scores(a) + Scores(b)
  {
  }

  /** A review taken out of the middle of a list takes its score out of the sum. */
  lemma SumScoresRemove(u: seq<Review>, x: Review, v: seq<Review>)
    ensures Sum(Scores(u + [x] + v)) == Sum(Scores(u + v)) + ReviewScore(x)
  {
    ScoresAppend(u + [x], v);
    ScoresAppend(u, [x]);
    SumAppend(Scores(u + [x]), Scores(v));
    SumAppend(Scores(u), Scores([x]));
    ScoresAppend(u, v);
    SumAppend(Scores(u), Scores(v));
    assert Scores([x]) == [ReviewScore(x)];
    SumSnoc([], ReviewScore(x));
  }

  lemma MultisetCancel<T>(a: seq<T>, x: T, u: seq<T>, v: seq<T>)
    requires multiset(a + [x]) == multiset(u + [x] + v)
    ensures multiset(a) == multiset(u + v)
  {
    var m, n := multiset(a), multiset(u + v);
    assert m + multiset{x} == n + multiset{x};
    forall y
      ensures m[y] == n[y]
    {
      assert (m + multiset{x})[y] == (n + multiset{x})[y];
    }
  }

  lemma SumScoresSnoc(a: seq<Review>, x: Review)
    ensures Sum(Scores(a + [x])) == Sum(Scores(a)) + ReviewScore(x)
  {
    assert (a + [x])[..|a|] == a;
  }

  /** An element of a list splits it around one of its occurrences. */
  lemma Occurrence<T>(b: seq<T>, x: T) returns (u: seq<T>, v: seq<T>)
    requires x in multiset(b)
    ensures b == u + [x] + v
  {
    var j :| 0 <= j < |b| && b[j] == x;
    u, v := b[..j], b[j + 1..];
    assert b == u + [x] + v;
  }

  /** Reordering the reviews keeps the sum of their scores. */
  lemma {:induction false} ScoresSumPermutation(a: seq<Review>, b: seq<Review>)
    requires multiset(a) == multiset(b)
    ensures Sum(Scores(a)) == Sum(Scores(b))
    decreases |a|
  {
    if a != [] {
      var a', x := a[..|a| - 1], a[|a| - 1];
      assert a == a' + [x];
      var u, v := Occurrence(b, x);
      MultisetCancel(a', x, u, v);
      ScoresSumPermutation(a', u + v);
      SumScoresSnoc(a', x);
      SumScoresRemove(u, x, v);
    }
  }

  /** Each review weighs the same whatever its position: any reordering keeps the rating. */
  lemma AverageRatingOrderFree(a: seq<Review>, b: seq<Review>)
    requires multiset(a) == multiset(b)
    ensures AverageRating(a) == AverageRating(b)
  {
    ScoresSumPermutation(a, b);
    assert |a| == |multiset(a)| == |multiset(b)| == |b|;
  }

  /** Two reviews scoring 4 and 2 give a product rating of 3. */
  lemma AverageRatingExample()
    ensures AverageRating([NewReview("r1", "Ann", "good", Num(5.0), Num(4.0), Num(3.0), Num(4.0)),
                           NewReview("r2", "Bob", "poor", Num(2.0), Num(2.0), Num(2.0), Num(2.0))]) == 3.0
  {
    NewReviewScore("r1", "Ann", "good", 5.0, 4.0, 3.0, 4.0);
    NewReviewScore("r2", "Bob", "poor", 2.0, 2.0, 2.0, 2.0);
    var rs := [NewReview("r1", "Ann", "good", Num(5.0), Num(4.0), Num(3.0), Num(4.0)),
               NewReview("r2", "Bob", "poor", Num(2.0), Num(2.0), Num(2.0), Num(2.0))];
    assert Scores(rs) == [4.0, 2.0];
    assert [4.0, 2.0][..1][..0] == [];
  }

  // ---------------------------------------------------------------------
  // The lists of a product
  // ---------------------------------------------------------------------

  /** `reviews.find((review) => review.ID === ID)` */
  function ReviewByID(reviews: seq<Review>, ID: string): (r: Option<Review>)
    ensures r.None? <==> forall i :: 0 <= i < |reviews| ==> reviews[i].ID != ID
    ensures r.Some? ==> exists i :: && 0 <= i < |reviews| && reviews[i] == r.value && r.value.ID == ID
                                    && forall j :: 0 <= j < i ==> reviews[j].ID != ID
  {
    Find(reviews, (review: Review) => review.ID == ID)
  }

  /** `reviews.filter((review) => review.ID !== ID)` */
  function WithoutReview(reviews: seq<Review>, ID: string): (r: seq<Review>)
    ensures forall i :: 0 <= i < |r| ==> r[i] in reviews && r[i].ID != ID
    ensures forall i :: 0 <= i < |reviews| && reviews[i].ID != ID ==> reviews[i] in r
    ensures (forall i :: 0 <= i < |reviews| ==> reviews[i].ID != ID) ==> r == reviews
  {
    var keep := (review: Review) => review.ID != ID;
    if forall i :: 0 <= i < |reviews| ==> reviews[i].ID != ID then
      FilterKeepsAll(reviews, keep);
      Filter(reviews, keep)
    else Filter(reviews, keep)
  }

  /** `sizes.filter((s) => s !== size)` */
  function WithoutSize(sizes: seq<string>, size: string): (r: seq<string>)
    ensures forall i :: 0 <= i < |r| ==> r[i] in sizes && r[i] != size
    ensures forall i :: 0 <= i < |sizes| && sizes[i] != size ==> sizes[i] in r
    ensures size !in sizes ==> r == sizes
  {
    var keep := (s: string) => s != size;
    if size !in sizes then
      FilterKeepsAll(sizes, keep);
      Filter(sizes, keep)
    else Filter(sizes, keep)
  }

  /** Deleting by ID what was just added leaves what deleting before the add would have left. */
  lemma DeleteReviewUndoesAdd(reviews: seq<Review>, r: Review)
    ensures WithoutReview(reviews + [r], r.ID) == WithoutReview(reviews, r.ID)
  {
    var keep := (review: Review) => review.ID != r.ID;
    FilterAppend(reviews, [r], keep);
    assert [r][..0] == [];
  }

  lemma DeleteSizeUndoesAdd(sizes: seq<string>, size: string)
    ensures WithoutSize(sizes + [size], size) == WithoutSize(sizes, size)
  {
    var keep := (s: string) => s != size;
    FilterAppend(sizes, [size], keep);
    assert [size][..0] == [];
  }

  /** Deletion keeps the surviving reviews in their order: it works piece by piece. */
  lemma WithoutReviewAppend(a: seq<Review>, b: seq<Review>, ID: string)
    ensures WithoutReview(a + b, ID) == WithoutReview(a, ID) + WithoutReview(b, ID)
  {
    FilterAppend(a, b, (review: Review) => review.ID != ID);
  }

  /** Deleting a size keeps the other sizes, with their order and repetitions. */
  lemma WithoutSizeAppend(a: seq<string>, b: seq<string>, size: string)
    ensures WithoutSize(a + b, size) == WithoutSize(a, size) + WithoutSize(b, size)
  {
    FilterAppend(a, b, (s: string) => s != size);
  }

  /** After adding a review, a lookup finds an earlier review with that ID first. */
  lemma ReviewByIDAfterAdd(reviews: seq<Review>, r: Review, ID: string)
    ensures ReviewByID(reviews + [r], ID)
         == if ReviewByID(reviews, ID).Some? then ReviewByID(reviews, ID)
            else if r.ID == ID then Some(r) else None
  {
    FindAppend(reviews, [r], (review: Review) => review.ID == ID);
  }

  // ---------------------------------------------------------------------
  // getImage
  // ---------------------------------------------------------------------

  /** The argument of `getImage`, by its `typeof`: a number, a string, or anything else (or none). */
  datatype ImageKey = Number(n: real) | Text(s: string) | Other

  /** `n` names an element of an array of length `len`: a whole number in range. */
  predicate IsIndex(n: real, len: nat)
  {
    n.Floor as real == n && 0 <= n.Floor < len
  }

  /** `getImage(image)`: by index, by name, or the first image. */
  function ImageLookup(images: seq<string>, key: ImageKey): (r: Option<string>)
    ensures key.Number? ==> (r.Some? <==> IsIndex(key.n, |images|))
    ensures key.Number? && r.Some? ==> r.value == images[key.n.Floor]
    ensures key.Text? ==> (r.Some? <==> key.s in images) && (r.Some? ==> r.value == key.s)
    ensures key.Other? ==> (r.Some? <==> |images| > 0) && (r.Some? ==> r.value == images[0])
  {
    match key
    case Number(n) => if IsIndex(n, |images|) then Some(images[n.Floor]) else None
    case Text(s) => Find(images, (img: string) => img == s)
    case Other => if |images| > 0 then Some(images[0]) else None
  }

  // ---------------------------------------------------------------------
  // search: new RegExp(`\\b${search}`, "i").test(name or description)
  // ---------------------------------------------------------------------

  /** What `search` and `sort` read of a product. */
  datatype ProductView = ProductView(ID: string, name: string, description: string, price: real)

  /**
   * Queries that `new RegExp` reads as a literal string and whose case the
   * ASCII fold settles: ASCII characters other than the syntax characters.
   * Without the `u` flag, `i` never folds a non-ASCII character onto an
   * ASCII one, so an ASCII query matches only ASCII text, letter case aside.
   */
  predicate IsPlainQuery(q: string)
  {
    forall i :: 0 <= i < |q| ==> q[i] < 128 as char && !IsSyntaxChar(q[i])
  }

  /** Spaces, hyphens and punctuation other than the syntax characters are literal. */
  lemma PlainQueryExamples()
    ensures IsPlainQuery("T-shirt") && IsPlainQuery("blue jeans, 42") && IsPlainQuery("")
    ensures !IsPlainQuery("c++") && !IsPlainQuery("(new)") && !IsPlainQuery("Київ")
  {
    assert "c++"[1] == '+';
    assert "(new)"[0] == '(';
    assert "Київ"[0] == 'К';
  }

  /** `\b` at position `p`: a word character on exactly one side (ECMA-262, section 22.2.2.7.3, IsWordChar). */
  predicate IsBoundary(s: string, p: nat)
    requires p <= |s|
  {
    (p > 0 && IsWordChar(s[p - 1])) != (p < |s| && IsWordChar(s[p]))
  }

  /** The query occurs at `p`, ignoring the case of ASCII letters. */
  predicate OccursAt(s: string, q: string, p: nat)
  {
    p + |q| <= |s| && Lower(s[p..p + |q|]) == Lower(q)
  }

  /** The language of `\b` followed by the query: some boundary where the query starts. */
  ghost predicate WordPrefixMatch(s: string, q: string)
  {
    exists p: nat :: p <= |s| && IsBoundary(s, p) && OccursAt(s, q, p)
  }

  /** `RegExp.prototype.test`: tries each start position from `p` on. */
  predicate TestFrom(s: string, q: string, p: nat)
    requires p <= |s|
    decreases |s| - p
  {
    (IsBoundary(s, p) && OccursAt(s, q, p)) || (p < |s| && TestFrom(s, q, p + 1))
  }

  predicate IsMatch(s: string, q: string)
  {
    TestFrom(s, q, 0)
  }

  lemma {:induction false} TestFromMeaning(s: string, q: string, p: nat)
    requires p <= |s|
    ensures TestFrom(s, q, p) <==> exists k: nat :: p <= k <= |s| && IsBoundary(s, k) && OccursAt(s, q, k)
    decreases |s| - p
  {
    if p < |s| {
      TestFromMeaning(s, q, p + 1);
      if exists k: nat :: p <= k <= |s| && IsBoundary(s, k) && OccursAt(s, q, k) {
        var k: nat :| p <= k <= |s| && IsBoundary(s, k) && OccursAt(s, q, k);
        if k > p {
          assert p + 1 <= k <= |s| && IsBoundary(s, k) && OccursAt(s, q, k);
        }
      }
    }
  }

  /** The scan accepts exactly the language of the pattern. */
  lemma IsMatchMeaning(s: string, q: string)
    ensures IsMatch(s, q) <==> WordPrefixMatch(s, q)
  {
    TestFromMeaning(s, q, 0);
  }

  /** A product is kept when its name or its description matches. */
  predicate Matches(p: ProductView, q: string)
  {
    IsMatch(p.name, q) || IsMatch(p.description, q)
  }

  /** `search(products, q)`: the products whose name or description has the query at a word start. */
  function Search(products: seq<ProductView>, q: string): (r: seq<ProductView>)
    requires IsPlainQuery(q)
    ensures forall i :: 0 <= i < |r| ==> r[i] in products
    ensures forall i :: 0 <= i < |r| ==> WordPrefixMatch(r[i].name, q) || WordPrefixMatch(r[i].description, q)
    ensures forall i :: 0 <= i < |products| && (WordPrefixMatch(products[i].name, q) || WordPrefixMatch(products[i].description, q))
                        ==> products[i] in r
  {
    assert forall p: ProductView :: Matches(p, q) <==> WordPrefixMatch(p.name, q) || WordPrefixMatch(p.description, q) by {
      forall p: ProductView
        ensures Matches(p, q) <==> WordPrefixMatch(p.name, q) || WordPrefixMatch(p.description, q)
      {
        IsMatchMeaning(p.name, q);
        IsMatchMeaning(p.description, q);
      }
    }
    Filter(products, (p: ProductView) => Matches(p, q))
  }

  /** The result keeps the input order: searching works piece by piece. */
  lemma SearchAppend(a: seq<ProductView>, b: seq<ProductView>, q: string)
    requires IsPlainQuery(q)
    ensures Search(a + b, q) == Search(a, q) + Search(b, q)
  {
    FilterAppend(a, b, (p: ProductView) => Matches(p, q));
  }

  /** The empty query matches exactly the texts that hold a word character. */
  lemma EmptyQueryMatches(s: string)
    ensures IsMatch(s, "") <==> exists i :: 0 <= i < |s| && IsWordChar(s[i])
  {
    IsMatchMeaning(s, "");
    if exists i :: 0 <= i < |s| && IsWordChar(s[i]) {
      var i :| 0 <= i < |s| && IsWordChar(s[i]);
      var k := FirstWordChar(s, i);
      assert IsBoundary(s, k) && OccursAt(s, "", k);
    }
    if WordPrefixMatch(s, "") {
      var p: nat :| p <= |s| && IsBoundary(s, p) && OccursAt(s, "", p);
      if p > 0 && IsWordChar(s[p - 1]) {
        assert 0 <= p - 1 < |s|;
      } else {
        assert 0 <= p < |s| && IsWordChar(s[p]);
      }
    }
  }

  /** The first word character at or before position `i`, which holds one. */
  function FirstWordChar(s: string, i: nat): (k: nat)
    requires i < |s| && IsWordChar(s[i])
    ensures k <= i && IsWordChar(s[k]) && (k == 0 || !IsWordChar(s[k - 1]))
  {
    if i > 0 && IsWordChar(s[i - 1]) then FirstWordChar(s, i - 1) else i
  }

  /** The default description holds word characters, so the empty query finds every such product. */
  lemma DefaultDescriptionMatchesEmptyQuery()
    ensures IsMatch("no description", "")
  {
    EmptyQueryMatches("no description");
    assert IsWordChar("no description"[0]);
  }

  /** The query must start at a word boundary: "shirt" is found in "T-shirt"... */
  lemma SearchExampleBoundary()
    ensures IsMatch("T-shirt", "shirt")
  {
    var s := "T-shirt";
    IsMatchMeaning(s, "shirt");
    assert s[2..7] == "shirt";
    assert IsBoundary(s, 2) && OccursAt(s, "shirt", 2);
  }

  /** ...but not in "Tshirt", where it starts inside a word. */
  lemma SearchExampleInsideWord()
    ensures !IsMatch("Tshirt", "shirt")
  {
    var s := "Tshirt";
    IsMatchMeaning(s, "shirt");
    forall p: nat | p <= |s|
      ensures !(IsBoundary(s, p) && OccursAt(s, "shirt", p))
    {
      if p == 0 {
        assert Lower(s[0..5])[0] == 't';
      } else if p == 1 {
        assert IsWordChar(s[0]) && IsWordChar(s[1]);
      }
    }
  }

  /** Changing the case of the query's letters does not change what is found. */
  lemma SearchIgnoresCase(s: string, q: string)
    ensures IsMatch(s, Lower(q)) == IsMatch(s, q)
  {
    LowerIdempotent(q);
    IsMatchMeaning(s, q);
    IsMatchMeaning(s, Lower(q));
  }

  lemma LowerIdempotent(s: string)
    ensures Lower(Lower(s)) == Lower(s)
  {
  }

  // ---------------------------------------------------------------------
  // sort: Array.prototype.sort on a copy, by ID, price or name
  // ---------------------------------------------------------------------

  /** The property a rule sorts by. */
  datatype SortKey = ByID | ByPrice | ByName

  /** `Up` puts smaller first; `Down` swaps the comparator's arguments. */
  datatype Direction = Up | Down

  /**
   * The ascending comparator for a key: `a.price - b.price`, or `localeCompare`
   * on the ID or the name, given here as `collate`.
   */
  function CompareBy(key: SortKey, collate: (string, string) -> real, a: ProductView, b: ProductView): real
  {
    match key
    case ByID => collate(a.ID, b.ID)
    case ByPrice => a.price - b.price
    case ByName => collate(a.name, b.name)
  }

  function Comparator(key: SortKey, dir: Direction, collate: (string, string) -> real): (ProductView, ProductView) -> real
  {
    (a: ProductView, b: ProductView) =>
      if dir == Up then CompareBy(key, collate, a, b) else CompareBy(key, collate, b, a)
  }

  /** With a consistent collation, every rule's comparator is consistent. */
  lemma ComparatorConsistent(key: SortKey, dir: Direction, collate: (string, string) -> real)
    requires Consistent(collate)
    ensures Consistent(Comparator(key, dir, collate))
  {
    var cmp := Comparator(key, dir, collate);
    forall a: ProductView, b: ProductView
      ensures Sign(cmp(a, b)) == -Sign(cmp(b, a))
    {
      match key
      case ByID => Flip(collate, a.ID, b.ID);
      case ByPrice =>
      case ByName => Flip(collate, a.name, b.name);
    }
    forall a: ProductView, b: ProductView, c: ProductView | Le(cmp, a, b) && Le(cmp, b, c)
      ensures Le(cmp, a, c)
    {
      match key
      case ByID =>
        if dir == Up { Trans(collate, a.ID, b.ID, c.ID); } else { Trans(collate, c.ID, b.ID, a.ID); }
      case ByPrice =>
      case ByName =>
        if dir == Up { Trans(collate, a.name, b.name, c.name); } else { Trans(collate, c.name, b.name, a.name); }
    }
  }

  /** The contents of the sorted copy. */
  function SortProducts(products: seq<ProductView>, key: SortKey, dir: Direction,
                        collate: (string, string) -> real): (r: seq<ProductView>)
    ensures multiset(r) == multiset(products)
  {
    SortByPermutes(products, Comparator(key, dir, collate));
    SortBy(products, Comparator(key, dir, collate))
  }

  /**
   * With a consistent collation the sorted copy is exactly what the standard
   * asks of `Array.prototype.sort`: ordered by the rule, equal products in
   * their input order (also when sorting down), and the only such sequence.
   */
  lemma SortProductsIsStableSort(products: seq<ProductView>, key: SortKey, dir: Direction,
                                 collate: (string, string) -> real, r: seq<ProductView>)
    requires Consistent(collate)
    ensures IsStableSortOf(SortProducts(products, key, dir, collate), products, Comparator(key, dir, collate))
    ensures IsStableSortOf(r, products, Comparator(key, dir, collate)) <==> r == SortProducts(products, key, dir, collate)
  {
    ComparatorConsistent(key, dir, collate);
    SortByIsStableSort(products, Comparator(key, dir, collate));
    StableSortIsSortBy(r, products, Comparator(key, dir, collate));
  }

  /** Sorting by price up puts cheaper products first. */
  lemma PriceUpOrders(products: seq<ProductView>, collate: (string, string) -> real, i: int, j: int)
    requires Consistent(collate)
    requires 0 <= i < j < |products|
    ensures SortProducts(products, ByPrice, Up, collate)[i].price <= SortProducts(products, ByPrice, Up, collate)[j].price
  {
    ComparatorConsistent(ByPrice, Up, collate);
    SortBySorted(products, Comparator(ByPrice, Up, collate));
  }

  /** Sorting by price down puts dearer products first. */
  lemma PriceDownOrders(products: seq<ProductView>, collate: (string, string) -> real, i: int, j: int)
    requires Consistent(collate)
    requires 0 <= i < j < |products|
    ensures SortProducts(products, ByPrice, Down, collate)[i].price >= SortProducts(products, ByPrice, Down, collate)[j].price
  {
    ComparatorConsistent(ByPrice, Down, collate);
    SortBySorted(products, Comparator(ByPrice, Down, collate));
  }

  // ---------------------------------------------------------------------
  // The string rule of sort: sortRule.toLowerCase() matched against six names
  // ---------------------------------------------------------------------

  /** The lower-case name of each rule. */
  function RuleName(key: SortKey, dir: Direction): string
  {
    match (key, dir)
    case (ByID, Up) => "idup"
    case (ByID, Down) => "iddown"
    case (ByPrice, Up) => "priceup"
    case (ByPrice, Down) => "pricedown"
    case (ByName, Up) => "nameup"
    case (ByName, Down) => "namedown"
  }

  /**
   * The `switch` on the lower-cased rule. Only the Kelvin sign among the
   * non-ASCII characters lower-cases to an ASCII letter, and `k` occurs in
   * no rule name, so lower-casing ASCII letters decides the same cases.
   */
  function ParseRule(rule: string): (r: Option<(SortKey, Direction)>)
    ensures r.Some? ==> Lower(rule) == RuleName(r.value.0, r.value.1)
    ensures r.None? ==> forall key, dir :: Lower(rule) != RuleName(key, dir)
  {
    var l := Lower(rule);
    if l == "idup" then Some((ByID, Up))
    else if l == "iddown" then Some((ByID, Down))
    else if l == "priceup" then Some((ByPrice, Up))
    else if l == "pricedown" then Some((ByPrice, Down))
    else if l == "nameup" then Some((ByName, Up))
    else if l == "namedown" then Some((ByName, Down))
    else None
  }

  /** Every rule is reachable: its own name selects it. */
  lemma ParseRuleName(key: SortKey, dir: Direction)
    ensures ParseRule(RuleName(key, dir)) == Some((key, dir))
  {
    var n := RuleName(key, dir);
    assert Lower(n) == n;
  }

  /** The rule is matched whatever the case of its letters. */
  lemma ParseRuleIgnoresCase(rule: string)
    ensures ParseRule(Lower(rule)) == ParseRule(rule)
  {
    LowerIdempotent(rule);
  }

  lemma ParseRuleExample()
    ensures ParseRule("NameUp") == Some((ByName, Up))
  {
    assert Lower("NameUp") == "nameup";
  }

  lemma ParseRuleRejectsSpace()
    ensures ParseRule("name up") == None
  {
    var l := Lower("name up");
    assert l[4] == ' ';
    assert l != "priceup";
  }
}
