# Sublevel 1.1 in Dafny

A model of the JavaScript exercises in Sublevel 1.1, with proofs about it. It covers five parts:

- **Field validators** (`validation.js`): `validateEmail`, `validatePhone` and `validatePassword`.
  Each is written as a hand-written recogniser over `string`. Each is proved equal to a declarative
  grammar that reads like the regular expression in the source.
- **The product catalog**, in its three near-duplicate forms:
  - the constructor function `Product` with prototype methods (`product_function.js`);
  - the abstract prototype `AbstractProduct`, with `Clothes` and `Electronics` (`OOP_JS_prototype.js`);
  - the ES class `Product` (`product_class.js`).

  The products are classes with mutable fields. Their `reviews`, `sizes` and `images` lists are
  heap objects (`Js.JsArray`), which captures how the source shares arrays:
  - `setReviews` stores the caller's array;
  - `addReview` pushes into it in place;
  - `deleteReview` rebinds the field to a fresh filtered array.
- **What the three product forms share** (module `Catalog`):
  - reviews and the two-level rating average;
  - the filter/find list operations;
  - `getImage`;
  - `search`, the `\b`-anchored, case-insensitive query;
  - `sort` over product snapshots.

  `sort` is specified by a stable insertion sort (module `Sorting`). It is proved to be a sorted,
  stable permutation, and to be the only one. This is the stable `Array.prototype.sort` of
  ECMA-262, section 23.1.3.30, given a consistent comparator.
- **City annotation** (`FP.js`). `addCityInfo` works in five steps:
  1. it filters CSV lines with its pattern;
  2. it splits each kept line into x, y, name and population;
  3. it ranks the cities by population and keeps the top ten;
  4. it builds the name → {population, rating} table;
  5. it returns the function that annotates every occurrence of a kept name in a text.

  The model follows these steps when no kept line has a comma where a coordinate's `.` wildcard
  stands. It then proves that every population is a number, and that no name is an array index
  or holds pattern syntax. So `Object.keys` gives the names in insertion order, and the joined
  pattern matches them as literal strings.

Modules:

- `Js`: `undefined`, exceptions, and the heap array.
- `Text`: character classes, ASCII lower-casing, `indexOf`, `replace` of the first match, `split`.
- `Lists`: `filter`, `find`.
- `Sorting`
- `Validation`
- `Catalog`
- `ProductFunction`
- `OopPrototype`
- `ProductClass`
- `CityInfo`

The model follows the code where the code and its comments or intent disagree. Each such case is
listed under "Findings" or "Left out". Some results differ from what a reader of the comments
would expect:

- `validateEmail("a@b.c")` is false, because the local part needs at least two characters.
- An empty search query matches any name or description that contains a word character.

## Model

| member | source | states |
|---|---|---|
| Validation.EmailRecogniserIsGrammar | validation.js:6-13 | the recogniser accepts exactly `local@domain.tld`, where: `local` is 2-20 chars, the first a letter or digit, the rest letters, digits, `+`, `.` or `-`; `domain` is 1-15 chars from letters, digits, `_` and ``.^+!?%&'$*/=-``; `tld` is 1-5 letters after the final dot |
| Validation.EmailHasOneAt | validation.js:13 | an accepted address contains exactly one `@` |
| Validation.EmailSplitLastDot | validation.js:13 | in an accepted split, no `.` follows the dot before the top-level domain |
| Validation.EmailIgnoresCase | validation.js:13 | the `i` flag: lower-casing the ASCII letters of an address does not change the verdict |
| Validation.EmailFirstChar | validation.js:7-13 | an address whose first character is not a letter or digit (e.g. `+`, `.`, `-`) is rejected |
| Validation.EmailExampleLeadingPlus | validation.js:7-13 | `+john@example.com` is rejected |
| Validation.EmailExampleAccepted | validation.js:6-13 | `john.doe@example.com` is accepted |
| Validation.EmailExampleShortest | validation.js:8-13 | `ab@b.c` is accepted: a two-character local part is enough |
| Validation.EmailExampleOneLetter | validation.js:8-13 | `a@b.c` is rejected: a one-character local part is too short |
| Validation.PhoneRecogniserIsGrammar | validation.js:26 | the recogniser accepts exactly the pattern's language: separators, an optional `+38`, then either ten digits among separators or `(` three digits `)` seven digits, with separators anywhere |
| Validation.PhoneBodyIsGrammar | validation.js:26 | the body recogniser (first non-separator, then the first `)`) accepts exactly the two body alternatives of the pattern |
| Validation.RepeatIsDigitRun | validation.js:26 | `([\s-]*\d[\s-]*){n}` matches exactly the strings of separators and digits with exactly `n` digits |
| Validation.SepDigitSepIsRunOfOne | validation.js:26 | one repetition `[\s-]*\d[\s-]*` is exactly a string of separators with one digit |
| Validation.BodyNotPlus | validation.js:26 | a body never starts with `+`, so `+38` can only be the prefix |
| Validation.NoPrefixBeforeBody | validation.js:26 | a body never starts with `+38` |
| Validation.DropLeadingSeps | validation.js:26 | leading separators of the body may be read by the outer `[\s-]*` instead |
| Validation.PhoneLengthCap | validation.js:22-28 | any string longer than 25 characters is rejected |
| Validation.PhoneExample | validation.js:18-28 | `+38 (099) 567 8901` is accepted |
| Validation.PasswordRule | validation.js:32-35 | accepted iff: at least 8 chars, all in `A-Za-z0-9_`, and at least one digit, one lower-case and one upper-case letter |
| Validation.PasswordRecogniserIsGrammar | validation.js:35 | the one-pass scan accepts exactly the language of the look-aheads and the character class |
| Validation.ScanPasswordMeaning | validation.js:35 | the scan from position `i` with flags seen so far means: the rest is word characters, and each missing class occurs in the rest |
| Validation.PasswordExampleAccepted | validation.js:35 | `Abcdef12` is accepted |
| Validation.PasswordExampleNoUpper | validation.js:33-35 | `abcdef12` is rejected: the check is case-sensitive |
| Validation.PasswordExampleTooShort | validation.js:32-35 | `Abc123` is rejected |
| Text.SplitJoin | FP.js:16 | joining the pieces of `split(sep)` with `sep` gives back the string |
| Text.SplitCount | FP.js:16 | `split` yields one more piece than there are separators |
| Text.SplitPieces | FP.js:16 | no piece of `split(sep)` contains `sep` |
| Text.SplitAtSep | FP.js:16 | splitting `a + sep + b` splits `a` and `b` separately |
| Text.RemoveFirstAroundIndex | FP.js:16 | `replace("#", "")` removes exactly the first `#`, or nothing when there is none |
| Text.RemoveFirstAround | FP.js:16 | removing the first `#` from `x + sep + y` acts on `x` if `x` has one, else on `y` |
| Text.RemoveFirst | FP.js:16 | `replace("#", "")`: the result is one character shorter exactly when a `#` occurs, and is the string itself when none does |
| Text.RemoveFirstMultiset | FP.js:16 | exactly one `#` is removed and every other character stays |
| Text.Split | FP.js:16 | `split` gives at least one piece, also for the empty string |
| Lists.Filter | product_function.js:125-136 | `filter` keeps exactly the elements satisfying the predicate, each taken from the input |
| Lists.FilterAppend | product_function.js:125-136 | `filter` keeps order: filtering a concatenation concatenates the filtered parts |
| Lists.FilterKeepsAll | product_function.js:125-136 | a `filter` that rejects nothing returns the same contents |
| Lists.Find | product_function.js:137-139 | `find` returns the first element satisfying the predicate, or `undefined` when none does |
| Lists.FindAppend | product_function.js:138 | `find` on a concatenation looks in the second part only when the first has no match |
| Sorting.SortByIsStableSort | product_function.js:220-230 | with a consistent comparator, the reference sort is sorted and keeps the input order of every class of equal elements |
| Sorting.SortByPermutes | product_function.js:217-230 | the reference sort is a permutation of its input |
| Sorting.StableSortIsSortBy | product_function.js:220-230 | any stable sort of the input is the reference sort, and only it |
| Sorting.SortByIdempotent | product_function.js:220-230 | sorting a sorted array changes nothing |
| Sorting.SortArray | product_function.js:220 | `Array.prototype.sort` in place: the array's new contents are the reference sort of its old contents |
| Catalog.NewReview | product_function.js:183-194 | `new Review(...)` keeps ID, author and comment and has the rating properties service, price, value and quality, in that order, holding the four given values |
| Catalog.NewReviewScore | product_function.js:157-194 | a review built from four numbers scores their mean |
| Catalog.NoNumbersScoreZero | product_function.js:157-170 | a rating object without a numeric property scores 0 |
| Catalog.AverageRating | product_function.js:146-150 | 0 without reviews; otherwise the sum of the review scores over the number of reviews |
| Catalog.ScoresSumPermutation | product_function.js:146-150 | any reordering of the reviews keeps the sum of their scores |
| Catalog.NotNumIgnored | product_function.js:159-165 | a rating property whose value is not a number does not change a review's score |
| Catalog.AverageRatingBounds | product_function.js:146-170 | the average lies between the smallest and the largest rating value, widened to include 0 |
| Catalog.AverageRatingOrderFree | product_function.js:146-150 | any two lists holding the same reviews, in any order, have the same average |
| Catalog.AverageRatingExample | product_function.js:146-170 | two reviews scoring 4 and 2 average 3 |
| Catalog.ReviewByID | product_function.js:137-139 | `getReviewByID`: the first review with that ID, or `undefined` when no review has it |
| Catalog.ReviewByIDAfterAdd | product_function.js:129-139 | after `addReview` the first match is unchanged when there was one; otherwise it is the new review if its ID matches |
| Catalog.WithoutReview | product_function.js:133-136 | `deleteReview` keeps exactly the reviews with another ID, and changes nothing when no review has that ID |
| Catalog.WithoutReviewAppend | product_function.js:133-136 | `deleteReview` keeps order |
| Catalog.DeleteReviewUndoesAdd | product_function.js:129-136 | deleting by an ID undoes adding a review with that ID |
| Catalog.WithoutSize | product_function.js:125-128 | `deleteSize` keeps exactly the other sizes, and changes nothing when the size is absent |
| Catalog.DeleteSizeUndoesAdd | product_function.js:121-128 | deleting a size undoes adding it |
| Catalog.WithoutSizeAppend | product_function.js:125-128 | `deleteSize` works piece by piece, so the other sizes keep their order and their repetitions |
| Catalog.ImageLookup | product_function.js:111-120 | `getImage`: a whole number in range gives that element, else `undefined`; a string gives itself iff present; anything else gives the first image |
| Catalog.IsMatchMeaning | product_function.js:204 | the left-to-right test of `\b` + query succeeds iff the query occurs, ignoring ASCII case, at some word boundary |
| Catalog.Search | product_function.js:203-208 | for a query that `new RegExp` reads literally, `search` returns only input products, exactly those whose name or description matches |
| Catalog.SearchAppend | product_function.js:205-207 | `search` keeps input order |
| Catalog.SearchIgnoresCase | product_function.js:204 | the `i` flag: lower-casing the query changes nothing |
| Catalog.EmptyQueryMatches | product_function.js:204 | the empty query matches a text iff it contains a word character |
| Catalog.DefaultDescriptionMatchesEmptyQuery | product_function.js:204 | the default description "no description" matches the empty query |
| Catalog.SearchExampleBoundary | product_function.js:204-206 | "shirt" matches "T-shirt" |
| Catalog.SearchExampleInsideWord | product_function.js:204-206 | "shirt" does not match "Tshirt" |
| Catalog.PlainQueryExamples | product_function.js:204 | spaces, hyphens and commas in a query are literal; `+`, `(` and non-ASCII letters are not modelled |
| Catalog.ComparatorConsistent | product_function.js:219-230 | the six comparators (ID, price or name; up or down) are consistent when collation is |
| Catalog.SortProducts | product_function.js:217-230 | the sorted copy is a permutation of the products |
| Catalog.SortProductsIsStableSort | product_function.js:217-230 | the sorted copy is the unique stable sort by the chosen key and direction |
| Catalog.PriceUpOrders | product_function.js:223-224 | "priceup" orders prices ascending |
| Catalog.PriceDownOrders | product_function.js:225-226 | "pricedown" orders prices descending |
| Catalog.ParseRule | product_function.js:218-232 | a rule selects key and direction iff its lower-case form is one of the six names; otherwise it selects nothing |
| Catalog.ParseRuleName | product_function.js:219-230 | each of the six names selects its own key and direction |
| Catalog.ParseRuleIgnoresCase | product_function.js:218 | the rule is matched after lower-casing |
| Catalog.ParseRuleExample | product_function.js:218-228 | "NameUp" sorts by name ascending |
| Catalog.ParseRuleRejectsSpace | product_function.js:231-232 | "name up" is no rule |
| ProductFunction.Product.constructor | product_function.js:13-25 | the given fields, description "no description", the six default sizes, no reviews, images img1-img3, each list a fresh array |
| ProductFunction.Product.SetID | product_function.js:31-34 | sets the ID only and returns the product |
| ProductFunction.Product.SetName | product_function.js:38-41 | sets the name only and returns the product |
| ProductFunction.Product.SetDescription | product_function.js:45-48 | sets the description only and returns the product |
| ProductFunction.Product.SetPrice | product_function.js:52-55 | sets the price only and returns the product |
| ProductFunction.Product.SetBrand | product_function.js:59-62 | sets the brand only and returns the product |
| ProductFunction.Product.SetSizes | product_function.js:66-69 | stores the caller's array itself and returns the product |
| ProductFunction.Product.SetActiveSize | product_function.js:73-76 | sets the active size only and returns the product |
| ProductFunction.Product.SetQuantity | product_function.js:80-83 | sets the quantity only and returns the product |
| ProductFunction.Product.SetReviews | product_function.js:94-97 | stores the caller's array itself and returns the product |
| ProductFunction.Product.SetImages | product_function.js:101-104 | stores the caller's array itself and returns the product |
| ProductFunction.Product.GetImage | product_function.js:111-120 | the number/string/default lookup on the product's images |
| ProductFunction.Product.AddSize | product_function.js:121-124 | appends the size in place to the array the field names |
| ProductFunction.Product.DeleteSize | product_function.js:125-128 | rebinds the field to a fresh array without that size |
| ProductFunction.Product.AddReview | product_function.js:129-132 | appends the review in place to the array the field names |
| ProductFunction.Product.DeleteReview | product_function.js:133-136 | rebinds the field to a fresh array without the reviews with that ID |
| ProductFunction.Product.GetReviewByID | product_function.js:137-139 | the first review with that ID, or `undefined` |
| ProductFunction.Product.GetAverageRating | product_function.js:146-151 | the reduce loop returns 0 without reviews, else the mean of the review scores |
| ProductFunction.SumObjectProperties | product_function.js:157-170 | the `for...in` loop returns the mean of the numeric rating values, or 0 when there are none |
| ProductFunction.Sort | product_function.js:216-234 | an unknown rule returns the input array itself; a known one returns a fresh array holding the stable sort by that rule, and the input array is not reordered |
| ProductFunction.SharedReviews | product_function.js:94-132 | two products given the same array see each other's added reviews |
| ProductFunction.DeleteDetaches | product_function.js:133-136 | after a delete the product has its own array; the other holder's list is unchanged |
| OopPrototype.NewAbstractProduct | OOP_JS_prototype.js:12-25 | `new AbstractProduct(...)` throws "Cannot instantiate abstract class"; called from a subclass it sets ID, name, brand, price and quantity to the arguments, the description to "no description", the reviews to a fresh empty array and the images to a fresh array of the three defaults |
| OopPrototype.AbstractProduct.constructor | OOP_JS_prototype.js:16-24 | the given fields, "no description", no reviews, images img1-img3 |
| OopPrototype.AbstractProduct.SetID | OOP_JS_prototype.js:31-34 | sets the ID only and returns the product |
| OopPrototype.AbstractProduct.SetName | OOP_JS_prototype.js:38-41 | sets the name only and returns the product |
| OopPrototype.AbstractProduct.SetDescription | OOP_JS_prototype.js:45-48 | sets the description only and returns the product |
| OopPrototype.AbstractProduct.SetPrice | OOP_JS_prototype.js:52-55 | sets the price only and returns the product |
| OopPrototype.AbstractProduct.SetBrand | OOP_JS_prototype.js:59-62 | sets the brand only and returns the product |
| OopPrototype.AbstractProduct.SetQuantity | OOP_JS_prototype.js:66-69 | sets the quantity only and returns the product |
| OopPrototype.AbstractProduct.SetReviews | OOP_JS_prototype.js:80-83 | stores the caller's array itself and returns the product |
| OopPrototype.AbstractProduct.SetImages | OOP_JS_prototype.js:87-90 | stores the caller's array itself and returns the product |
| OopPrototype.AbstractProduct.GetImage | OOP_JS_prototype.js:97-106 | the number/string/default lookup on the product's images |
| OopPrototype.AbstractProduct.AddReview | OOP_JS_prototype.js:107-110 | appends the review in place |
| OopPrototype.AbstractProduct.DeleteReview | OOP_JS_prototype.js:111-114 | rebinds the field to a fresh array without the reviews with that ID |
| OopPrototype.AbstractProduct.GetReviewByID | OOP_JS_prototype.js:115-117 | the first review with that ID, or `undefined` |
| OopPrototype.AbstractProduct.GetAverageRating | OOP_JS_prototype.js:124-138 | returns 0 iff there are no reviews, and throws a ReferenceError iff there is at least one |
| OopPrototype.Clothes.constructor | OOP_JS_prototype.js:203-219 | the abstract product's fields, then the six default sizes, the active size, material and colour |
| OopPrototype.Clothes.SetSizes | OOP_JS_prototype.js:228-231 | stores the caller's array itself and returns the product |
| OopPrototype.Clothes.SetActiveSize | OOP_JS_prototype.js:235-238 | sets the active size only and returns the product |
| OopPrototype.Clothes.AddSize | OOP_JS_prototype.js:239-242 | appends the size in place |
| OopPrototype.Clothes.DeleteSize | OOP_JS_prototype.js:243-246 | rebinds the field to a fresh array without that size |
| OopPrototype.Clothes.SetMaterial | OOP_JS_prototype.js:250-253 | sets the material only and returns the product |
| OopPrototype.Clothes.SetColor | OOP_JS_prototype.js:257-260 | sets the colour only and returns the product |
| OopPrototype.Electronics.constructor | OOP_JS_prototype.js:263-267 | the abstract product's fields, then warranty and power |
| OopPrototype.Electronics.SetWarranty | OOP_JS_prototype.js:274-277 | sets the warranty only and returns the product |
| OopPrototype.Electronics.SetPower | OOP_JS_prototype.js:281-284 | sets the power only and returns the product |
| OopPrototype.AverageRatingFixed | OOP_JS_prototype.js:124-138 | the average with the reduce result kept: 0 without reviews |
| OopPrototype.AverageRatingFixedAgrees | OOP_JS_prototype.js:125-137 | with all rating values numeric, that average equals the shared two-level average |
| OopPrototype.RatingDiscrepancy | OOP_JS_prototype.js:132-137 | a product with numeric reviews throws where the evidently intended average exists |
| OopPrototype.RuleOf | OOP_JS_prototype.js:307-323 | a rule object sorts iff `sort` is "price", "ID" or "name"; the direction is ascending iff `rule` is "up" |
| OopPrototype.AnyOtherRuleSortsDown | OOP_JS_prototype.js:308-312 | `{sort: "price", rule: "Up"}` sorts descending |
| OopPrototype.Sort | OOP_JS_prototype.js:307-324 | an unknown key returns the input array itself; a known one returns a fresh stable-sorted copy and leaves the input as it was |
| ProductClass.Product.constructor | product_class.js:18-30 | the given fields, "no description", the six default sizes, no reviews, images img1-img3 |
| ProductClass.Product.SetID | product_class.js:35-38 | sets the ID only and returns the product |
| ProductClass.Product.SetName | product_class.js:42-45 | sets the name only and returns the product |
| ProductClass.Product.SetDescription | product_class.js:49-52 | sets the description only and returns the product |
| ProductClass.Product.SetPrice | product_class.js:56-59 | sets the price only and returns the product |
| ProductClass.Product.Setbrand | product_class.js:63-66 | the lower-case-named `setbrand` sets the brand only and returns the product |
| ProductClass.Product.SetSizes | product_class.js:70-73 | stores the caller's array itself and returns the product |
| ProductClass.Product.SetActiveSize | product_class.js:77-80 | sets the active size only and returns the product |
| ProductClass.Product.SetQuantity | product_class.js:84-87 | sets the quantity only and returns the product |
| ProductClass.Product.SetReviews | product_class.js:98-101 | stores the caller's array itself and returns the product |
| ProductClass.Product.SetImages | product_class.js:105-108 | stores the caller's array itself and returns the product |
| ProductClass.Product.GetImage | product_class.js:109-118 | the number/string/default lookup on the product's images |
| ProductClass.Product.AddSize | product_class.js:119-122 | appends the size in place |
| ProductClass.Product.DeleteSize | product_class.js:123-126 | rebinds the field to a fresh array without that size |
| ProductClass.Product.AddReview | product_class.js:127-130 | appends the review in place |
| ProductClass.Product.DeleteReview | product_class.js:131-134 | rebinds the field to a fresh array without the reviews with that ID |
| ProductClass.Product.GetReviewByID | product_class.js:135-137 | the first review with that ID, or `undefined` |
| ProductClass.Product.GetAverageRating | product_class.js:143-147 | always 0 |
| ProductClass.GetProductRating | product_class.js:154-167 | the `for...in` loop counts no property, because `isValidProperty` returns `undefined`, so the score is 0 |
| ProductClass.RatingMeantExample | product_class.js:143-167 | a single review rated 4, 4, 4, 4 was evidently meant to average 4 |
| ProductClass.Sort | product_class.js:216-218 | every call throws a TypeError, because `toLowercase` is not a function |
| ProductClass.IddownUnreachable | product_class.js:218-232 | with `toLowerCase`, the `"Iddown"` case never matches; every other rule behaves as in `ParseRule`, and a descending-ID rule falls to the default |
| ProductClass.ParseRuleAsWritten | product_class.js:218-232 | the case table as written: apart from `"Iddown"`, a result names the rule whose lower-case name was given, and no result means that no other rule name matched |
| CityInfo.KeepLineIsGrammar | FP.js:34 | the line recogniser accepts exactly the lines that start with the pattern `(\d\d.\d\d,){2}"?[name chars]+"?,\d+,`, where `.` is one UTF-16 code unit, so a character outside the Basic Multilingual Plane never matches it |
| CityInfo.AstralWildcardDropped | FP.js:34 | a line whose coordinate wildcard holds an emoji is dropped |
| CityInfo.DroppedLines | FP.js:7-34 | the blank line, the lone `#` and the line starting with `#` are dropped |
| CityInfo.KeptLineExample | FP.js:9-34 | the Vinnytsia line is kept |
| CityInfo.KeptLineCommas | FP.js:16-34 | a kept line has at least four commas, also after its first `#` is removed |
| CityInfo.LineToCity | FP.js:15-22 | the four fields are the first four comma-free pieces of the line without its first `#` |
| CityInfo.PopulationIsDigitRun | FP.js:16-34 | when neither coordinate's wildcard matched a comma, the population field is the pattern's digit run |
| CityInfo.NameIsPlain | FP.js:16-34 | when neither coordinate's wildcard matched a comma, the name field holds only characters of the name class and quotes |
| CityInfo.PlainNameIsLiteral | FP.js:34-41 | such a name is no array index and holds no pattern syntax character |
| CityInfo.RankedIsRegular | FP.js:32-38 | in a ranked table every population field is a digit string, so `+` never gives NaN |
| CityInfo.Cities | FP.js:35 | one city per kept line, in order |
| CityInfo.ByPopulationConsistent | FP.js:36 | the comparator `+b.population - +a.population` is consistent: antisymmetric in sign and transitive |
| CityInfo.Rank | FP.js:36-37 | at most ten cities are kept |
| CityInfo.RankOrdered | FP.js:36-37 | the kept cities are the first ten of the stable sort, by population, descending |
| CityInfo.RankIsTop | FP.js:36-37 | no city left out is more populous than one kept |
| CityInfo.PutLookup | FP.js:24-30 | assigning a key replaces its entry and leaves every other key's entry alone |
| CityInfo.PutUnique | FP.js:24-30 | assignment keeps keys unique |
| CityInfo.BuildTableLookup | FP.js:24-38 | a name's entry holds the population and 1-based rating of its last occurrence in rank order |
| CityInfo.BuildTableFirstKey | FP.js:38-41 | the first key in insertion order is the first-ranked city's name; for a ranked table this is the first key `Object.keys` gives |
| CityInfo.BuildTable | FP.js:24-38 | the table has no more entries than there are ranked cities |
| CityInfo.BuildTableKeys | FP.js:24-30 | every key is the name of a ranked city |
| CityInfo.RankFrom | FP.js:36-37 | every ranked city comes from the input |
| CityInfo.RankedKeysAreLiteral | FP.js:38-41 | no key of a ranked table is an array index, so `Object.keys` lists the keys in insertion order, and no key holds pattern syntax, so the joined pattern is an alternation of literal names |
| CityInfo.KeptLines | FP.js:32-34 | exactly the lines of `split("\n")` that pass the filter |
| CityInfo.AddCityInfo | FP.js:32-38 | a table is built exactly when no kept line has a comma in a coordinate's wildcard position; it has at most ten unique keys |
| CityInfo.AddCityInfoRating | FP.js:24-38 | each name's entry is that of its last occurrence among the ranked cities |
| CityInfo.FirstKeyAt | FP.js:41 | the alternation tries the keys in table order: the first key the text starts with wins |
| CityInfo.Annotate | FP.js:40-47 | throws a TypeError iff the table is empty (the pattern is then empty and `cities[""]` is `undefined`) |
| CityInfo.AnnotateNoKey | FP.js:40-47 | a text in which no name occurs comes back unchanged |
| CityInfo.Scan | FP.js:41-46 | annotating only inserts text: the result is at least as long as the input |
| CityInfo.ScanCopiesPrefix | FP.js:41-46 | text in which no key starts at any position is copied unchanged, and the scan goes on after it |
| CityInfo.ScanFirstOccurrence | FP.js:41-46 | at the first position where a key starts, the first such key in key order is kept and followed by its note, and the scan resumes after it, or one character on after an empty key |
| CityInfo.AnnotateExample | FP.js:42-46 | "Вінниця." becomes "Вінниця" + its note + "." |

## Left out

- Dates. The constructors stamp `new Date()`, and `setDate`/`getDate` read and set it. This is a clock read, so it is not part of this model.
- Plain getters (`getID`, `getSizes`, ...; `getColor`, which returns the method itself). They only read a field.
- `getPriceForQuantity`, `getSetProperty`, `getFullInformation` and `getObjectInfo` in `OOP_JS_prototype.js`. They are number-to-string formatting and reflective `for...in` enumeration of arbitrary values.
- The demo fixtures and `console.log` calls at the end of each file.
- IEEE-754 arithmetic. Prices, quantities and ratings are `real`, and populations are `nat`, so there is no NaN, no infinity and no rounding. Two populations above 2^53 that `+` rounds to the same double compare equal in the source, which can change the stable ranking; the model orders them exactly. `typeof NaN === "number"` is not modelled.
- `localeCompare`. It is an ICU call, so it is the abstract parameter `collate`. Properties of a sort by ID or name assume that `collate` is consistent.
- Catalog.Search: the query must be ASCII and hold none of the pattern syntax characters `^ $ \ . * + ? ( ) [ ] { } |` (`IsPlainQuery`). The source puts the query into `new RegExp` unescaped. With a syntax character the query becomes a pattern of its own or throws a SyntaxError, and a general regular-expression engine is not part of this model. A non-ASCII query letter would need the Unicode case mapping of the `i` flag.
- Case folding. It is ASCII-only (`Text.Lower`). For the validators and `search` this is exact: every pattern there that has the `i` flag uses only ASCII letters, and without the `u` flag no non-ASCII character folds onto one. The FP name class spells out its case-insensitive closure instead; see `CityInfo.IsNameChar`.
- `search` and `sort` take snapshots (`Catalog.ProductView`) of ID, name, description and price. They read no other field, and `sort` only reorders references.
- Prototype chains and `AbstractProduct.call(this, ...)`. `Clothes` and `Electronics` hold their abstract-product part as `base` instead.
- OopPrototype.Sort: a `sortRule` that is not an object with string fields is not modelled. Neither is a `sortRule` without `sort`/`rule`, which falls to the default anyway.
- ProductFunction.Sort: a non-string `sortRule` is not modelled. The source would throw a TypeError from `toLowerCase`.
- Property order of a rating object. The own properties are a sequence in `for...in` / `Object.values` order, which is insertion order for the string keys used here.
- CityInfo.AddCityInfo: returns `Irregular`, and so does not model the result, when the `.` of a coordinate (character 3 or 9 of the line) in some kept line matched a comma, as in `12,34,56,78,Київ,5,`. The fields of such a line shift. Its name can then be an array index such as `56`, which `Object.keys` lists before all other keys. It can hold pattern syntax such as `.`. Its population can be empty or blank, which `+` reads as 0, or not a number, which `+` reads as NaN.
- CityInfo.Population: a population is read as a whole decimal number. `+` would also accept forms such as `1e3` or surrounding spaces, but the filter only lets digit runs through (`CityInfo.PopulationIsDigitRun`).
- CityInfo.Scan: after an empty match the `g`-flag replace moves one `char` on. The empty key comes from a name field that is just `#`, as in `49.15,28.41,#,356665,`, and the model follows the source there. JavaScript moves one UTF-16 code unit on, so for text outside the Basic Multilingual Plane it could put a note between the two halves of a surrogate pair. The model does not capture this.
- OopPrototype.AverageRatingFixed: returns `None` when some rating value is not a number. JavaScript would then add a non-number to the running sum, which gives string concatenation or NaN. The corrected average is stated only for all-numeric ratings.

## Findings

| source | as written | input that shows it | evidently intended | confidence | as-written member | corrected member |
|---|---|---|---|---|---|---|
| OOP_JS_prototype.js:132-137 | the result of `this.reviews.reduce(...)` is discarded, and line 137 reads the undeclared `rating`, a ReferenceError in strict mode | any product with one review, e.g. rating service 5, price 5, value 5, quality 5 | the mean of the per-review means (5) | not executed | OopPrototype.AbstractProduct.GetAverageRating, OopPrototype.RatingDiscrepancy | OopPrototype.AverageRatingFixed, OopPrototype.AverageRatingFixedAgrees |
| product_class.js:156-158 | `isValidProperty` has a block body with no `return`, so it returns `undefined` and no rating property is counted | one review rated 4, 4, 4, 4: `getAverageRating()` is 0 | 4 | not executed | ProductClass.GetProductRating, ProductClass.Product.GetAverageRating, ProductClass.RatingMeantExample | ProductFunction.SumObjectProperties, ProductFunction.Product.GetAverageRating |
| product_class.js:218 | `sortRule.toLowercase()` is not a String method, so every call throws a TypeError | `sort(products, "idup")` | lower-case the rule with `toLowerCase` and sort | not executed | ProductClass.Sort | ProductFunction.Sort |
| product_class.js:221 | the case label `"Iddown"` is compared with a lower-cased rule and can never match | `"iddown"` (after fixing `toLowerCase`) returns the input unsorted | `"iddown"` sorts by ID descending | not executed | ProductClass.ParseRuleAsWritten, ProductClass.IddownUnreachable | Catalog.ParseRule, Catalog.ParseRuleName |
