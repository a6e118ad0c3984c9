/** `validate_price_accuracy` (identical in tests/test_amazon_complete.py and
    tests/test_amazon_complete_backup.py) and `validate_price_accuracy_enhanced`
    (tests/test_amazon_complete.py): products whose price is set are split
    into those within the tolerance of the expected maximum and those over it;
    the accuracy is the within share, as a percentage of the priced products. */
module PriceValidation {
  import opened Wrappers
  import opened Text
  import opened Ratio

  /** A scraped product as far as validation reads it: its `title` entry
      (absent, `None` or a string) and its `price` (`None` when not found). */
  datatype Product = Product(title: Field<string>, price: Option<int>)

  /** `product.get("price")` is truthy: set and not zero. */
  predicate HasPrice(p: Product) {
    p.price.Some? && p.price.value != 0
  }

  /** `price <= expected + expected * (tolerance / 100)`, multiplied out by
      100 so that it is exact. */
  predicate WithinLimit(price: int, expectedMax: int, tolerance: int) {
    100 * price <= expectedMax * (100 + tolerance)
  }

  const DefaultTolerance := 25
  const EnhancedTolerance := 30
  const TitleWidth := 50
  const ShownInvalid := 3

  /** One entry of `invalid_products`. */
  datatype Invalid = Invalid(title: string, price: int, expectedMax: int)

  /** `product.get("title", "Unknown")[:50]`; a title that is present but
      `None` would raise, which the callers exclude. */
  function ShownTitle(title: Field<string>): (s: string)
    requires !title.Null?
    ensures |s| <= TitleWidth
    ensures title.Missing? ==> s == "Unknown"
    ensures title.Present? ==> |s| == (if |title.value| <= TitleWidth then |title.value| else TitleWidth)
    ensures title.Present? ==> |s| <= |title.value| && s == title.value[..|s|]
  {
    match title
    case Missing => "Unknown"
    case Present(t) => Take(t, TitleWidth)
  }

  /** Every over-limit product has a title that can be sliced. */
  predicate TitlesUsable(ps: seq<Product>, expectedMax: int, tolerance: int) {
    forall k :: 0 <= k < |ps| && HasPrice(ps[k]) && !WithinLimit(ps[k].price.value, expectedMax, tolerance) ==>
      !ps[k].title.Null?
  }

  /** The prices within the limit, in input order. */
  function ValidPrices(ps: seq<Product>, expectedMax: int, tolerance: int): (r: seq<int>)
    ensures |r| <= |ps|
    ensures forall k :: 0 <= k < |r| ==> r[k] != 0 && WithinLimit(r[k], expectedMax, tolerance)
  {
    if ps == [] then []
    else
      var p := ps[|ps| - 1];
      ValidPrices(ps[..|ps| - 1], expectedMax, tolerance)
        + if HasPrice(p) && WithinLimit(p.price.value, expectedMax, tolerance) then [p.price.value] else []
  }

  /** The over-limit products, in input order. */
  function OverLimit(ps: seq<Product>, expectedMax: int, tolerance: int): (r: seq<Invalid>)
    requires TitlesUsable(ps, expectedMax, tolerance)
    ensures |r| <= |ps|
    ensures forall k :: 0 <= k < |r| ==>
      !WithinLimit(r[k].price, expectedMax, tolerance) && r[k].expectedMax == expectedMax
      && r[k].price != 0 && |r[k].title| <= TitleWidth
  {
    if ps == [] then []
    else
      var p := ps[|ps| - 1];
      OverLimit(ps[..|ps| - 1], expectedMax, tolerance)
        + if HasPrice(p) && !WithinLimit(p.price.value, expectedMax, tolerance)
          then [Invalid(ShownTitle(p.title), p.price.value, expectedMax)] else []
  }

  /** The number of products whose price is set. */
  function PricedCount(ps: seq<Product>): (n: nat)
    ensures n <= |ps|
  {
    if ps == [] then 0 else PricedCount(ps[..|ps| - 1]) + if HasPrice(ps[|ps| - 1]) then 1 else 0
  }

  /** Every priced product is counted exactly once, as valid or as invalid,
      and unpriced products are skipped: valid + invalid = priced <= total. */
  lemma {:induction false} CountsAddUp(ps: seq<Product>, expectedMax: int, tolerance: int)
    requires TitlesUsable(ps, expectedMax, tolerance)
    ensures |ValidPrices(ps, expectedMax, tolerance)| + |OverLimit(ps, expectedMax, tolerance)| == PricedCount(ps)
    ensures PricedCount(ps) <= |ps|
  {
    if ps != [] {
      CountsAddUp(ps[..|ps| - 1], expectedMax, tolerance);
    }
  }

  /** Nothing priced is lost: each priced product within the limit has its
      price among the valid ones, and each one over it has its entry among
      the invalid ones. */
  lemma {:induction false} EveryPricedProductClassified(ps: seq<Product>, expectedMax: int, tolerance: int)
    requires TitlesUsable(ps, expectedMax, tolerance)
    ensures forall k :: 0 <= k < |ps| && HasPrice(ps[k]) && WithinLimit(ps[k].price.value, expectedMax, tolerance) ==>
      ps[k].price.value in ValidPrices(ps, expectedMax, tolerance)
    ensures forall k :: 0 <= k < |ps| && HasPrice(ps[k]) && !WithinLimit(ps[k].price.value, expectedMax, tolerance) ==>
      Invalid(ShownTitle(ps[k].title), ps[k].price.value, expectedMax) in OverLimit(ps, expectedMax, tolerance)
  {
    if ps != [] {
      var front := ps[..|ps| - 1];
      EveryPricedProductClassified(front, expectedMax, tolerance);
      forall k | 0 <= k < |ps| - 1
        ensures ps[k] == front[k]
      {
      }
    }
  }

  /** The passing rule: 70% accuracy for validate_price_accuracy; 40%
      accuracy or two valid prices for the enhanced variant. */
  datatype PassRule = Strict | Lenient

  function Passes(rule: PassRule, accuracy: real, validCount: nat): bool {
    match rule
    case Strict => accuracy >= 70.0
    case Lenient => accuracy >= 40.0 || validCount >= 2
  }

  /** The strict rule passes exactly when at least 7 in 10 priced products
      are valid, and never when nothing is priced. */
  lemma StrictPassesIffSevenInTen(valid: nat, priced: nat)
    requires valid <= priced
    ensures Passes(Strict, Percent(valid, priced), valid) <==> priced > 0 && 10 * valid >= 7 * priced
  {
    if priced > 0 {
      var a := Percent(valid, priced);
      var p := priced as real;
      assert a * p == 100.0 * valid as real;
      if a >= 70.0 {
        assert a * p >= 70.0 * p;
      } else {
        assert a * p < 70.0 * p;
      }
    }
  }

  /** The lenient rule passes exactly when at least 2 in 5 priced products are
      valid or two are valid; with nothing priced it fails. */
  lemma LenientPassesIffTwoInFive(valid: nat, priced: nat)
    requires valid <= priced
    ensures Passes(Lenient, Percent(valid, priced), valid) <==>
      (priced > 0 && 5 * valid >= 2 * priced) || valid >= 2
    ensures priced == 0 ==> !Passes(Lenient, Percent(valid, priced), valid)
  {
    if priced > 0 {
      var a := Percent(valid, priced);
      var p := priced as real;
      assert a * p == 100.0 * valid as real;
      if a >= 40.0 {
        assert a * p >= 40.0 * p;
      } else {
        assert a * p < 40.0 * p;
      }
    }
  }

  /** The dictionary returned: without products, only the accuracy 0 and
      (for the enhanced variant) `passed` False; otherwise every count. */
  datatype Validation =
    | NoProducts(passedFlag: Option<bool>)
    | Validated(accuracy: real, validCount: nat, invalidCount: nat, totalProducts: nat,
                productsWithPrices: nat, invalidProducts: seq<Invalid>, passed: bool)

  /** The loop shared by both validators: it splits the priced products into
      the valid prices and the over-limit entries, in input order. */
  method Tally(ps: seq<Product>, expectedMax: int, tolerance: int) returns (valid: seq<int>, invalid: seq<Invalid>)
    requires TitlesUsable(ps, expectedMax, tolerance)
    ensures valid == ValidPrices(ps, expectedMax, tolerance)
    ensures invalid == OverLimit(ps, expectedMax, tolerance)
  {
    valid, invalid := [], [];
    for i := 0 to |ps|
      invariant TitlesUsable(ps[..i], expectedMax, tolerance)
      invariant valid == ValidPrices(ps[..i], expectedMax, tolerance)
      invariant invalid == OverLimit(ps[..i], expectedMax, tolerance)
    {
      var p := ps[i];
      assert ps[..i + 1][..i] == ps[..i];
      assert ps[..i + 1][i] == p;
      if p.price.Some? && p.price.value != 0 {
        if 100 * p.price.value <= expectedMax * (100 + tolerance) {
          valid := valid + [p.price.value];
        } else {
          invalid := invalid + [Invalid(ShownTitle(p.title), p.price.value, expectedMax)];
        }
      }
    }
    assert ps[..|ps|] == ps;
  }

  /** Both validators, the rule and the empty-input answer aside. */
  method Validate(ps: seq<Product>, expectedMax: int, tolerance: int, rule: PassRule, emptyPassed: Option<bool>)
    returns (v: Validation)
    requires TitlesUsable(ps, expectedMax, tolerance)
    ensures ps == [] ==> v == NoProducts(emptyPassed)
    ensures ps != [] ==>
      && v.Validated?
      && v.validCount == |ValidPrices(ps, expectedMax, tolerance)|
      && v.invalidCount == |OverLimit(ps, expectedMax, tolerance)|
      && v.totalProducts == |ps|
      && v.productsWithPrices == v.validCount + v.invalidCount == PricedCount(ps) <= v.totalProducts
      && v.accuracy == Percent(v.validCount, v.productsWithPrices)
      && v.invalidProducts == Take(OverLimit(ps, expectedMax, tolerance), ShownInvalid)
      && v.passed == Passes(rule, v.accuracy, v.validCount)
  {
    if ps == [] {
      return NoProducts(emptyPassed);
    }
    var valid, invalid := Tally(ps, expectedMax, tolerance);
    CountsAddUp(ps, expectedMax, tolerance);
    var withPrices := |valid| + |invalid|;
    var accuracy := if withPrices > 0 then |valid| as real / withPrices as real * 100.0 else 0.0;
    var passed := match rule
      case Strict => accuracy >= 70.0
      case Lenient => accuracy >= 40.0 || |valid| >= 2;
    v := Validated(accuracy, |valid|, |invalid|, |ps|, withPrices, Take(invalid, ShownInvalid), passed);
  }

  /** validate_price_accuracy: with products, the accuracy lies in [0, 100],
      valid + invalid = priced <= total, at most the first three over-limit
      products are shown, and `passed` holds iff at least 7 in 10 priced
      products are valid; without products there is no `passed` entry. */
  method ValidatePriceAccuracy(ps: seq<Product>, expectedMax: int, tolerance: int) returns (v: Validation)
    requires TitlesUsable(ps, expectedMax, tolerance)
    ensures ps == [] ==> v == NoProducts(None)
    ensures ps != [] ==>
      && v.Validated?
      && 0.0 <= v.accuracy <= 100.0
      && v.validCount == |ValidPrices(ps, expectedMax, tolerance)|
      && v.invalidCount == |OverLimit(ps, expectedMax, tolerance)|
      && v.validCount + v.invalidCount == v.productsWithPrices == PricedCount(ps) <= v.totalProducts == |ps|
      && v.invalidProducts == Take(OverLimit(ps, expectedMax, tolerance), ShownInvalid)
      && (v.passed <==> v.productsWithPrices > 0 && 10 * v.validCount >= 7 * v.productsWithPrices)
  {
    v := Validate(ps, expectedMax, tolerance, Strict, None);
    if v.Validated? {
      StrictPassesIffSevenInTen(v.validCount, v.productsWithPrices);
    }
  }

  /** validate_price_accuracy_enhanced: the same counts; `passed` holds iff
      at least 2 in 5 priced products are valid or two are valid; without
      products `passed` is False. */
  method ValidatePriceAccuracyEnhanced(ps: seq<Product>, expectedMax: int, tolerance: int) returns (v: Validation)
    requires TitlesUsable(ps, expectedMax, tolerance)
    ensures ps == [] ==> v == NoProducts(Some(false))
    ensures ps != [] ==>
      && v.Validated?
      && 0.0 <= v.accuracy <= 100.0
      && v.validCount == |ValidPrices(ps, expectedMax, tolerance)|
      && v.invalidCount == |OverLimit(ps, expectedMax, tolerance)|
      && v.validCount + v.invalidCount == v.productsWithPrices == PricedCount(ps) <= v.totalProducts == |ps|
      && v.invalidProducts == Take(OverLimit(ps, expectedMax, tolerance), ShownInvalid)
      && (v.passed <==> (v.productsWithPrices > 0 && 5 * v.validCount >= 2 * v.productsWithPrices) || v.validCount >= 2)
  {
    v := Validate(ps, expectedMax, tolerance, Lenient, Some(false));
    if v.Validated? {
      LenientPassesIffTwoInFive(v.validCount, v.productsWithPrices);
    }
  }
}
