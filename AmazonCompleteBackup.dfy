/** The data logic of tests/test_amazon_complete_backup.py that is not shared
    with the main file: the choice of product containers and the records of
    `extract_comprehensive_product_data`, its own `intelligent_popup_dismissal`
    and the rates the mouse-interaction test asserts on. Its
    `extract_product_title`, `extract_product_price` and
    `validate_price_accuracy` are ProductExtraction.ExtractProductTitle,
    ProductExtraction.ExtractProductPrice and
    PriceValidation.ValidatePriceAccuracy. */
module AmazonCompleteBackup {
  import opened Wrappers
  import opened Text
  import opened Scan
  import opened PopupPasses
  import opened ProductExtraction
  import opened PriceValidation

  // ---------------------------------------------------------------------------
  // extract_comprehensive_product_data: the containers

  const ContainerSelectors: seq<string> := [
    "[data-component-type='s-search-result']",
    ".s-result-item",
    ".sg-row .sg-col-inner"
  ]

  /** A selector's containers are taken once there are at least this many. */
  const MinContainers := 3

  predicate EnoughContainers(cs: seq<ProductContainer>) {
    |cs| >= MinContainers
  }

  /** The containers the extraction works on, `found[i]` being what the i-th
      container selector finds: those of the first selector finding at least
      three, else those of the last selector, however few. */
  function ChosenContainers(found: seq<seq<ProductContainer>>): seq<ProductContainer>
  {
    match FirstInRow(found, EnoughContainers, 0)
    case Some(i) => found[i]
    case None => if found == [] then [] else found[|found| - 1]
  }

  /** The first selector with three containers wins; when none has three,
      the last selector's list is kept even if it is short but not empty; so
      a short choice means no selector found three. */
  lemma ContainerChoice(found: seq<seq<ProductContainer>>)
    ensures forall i :: 0 <= i < |found| && |found[i]| >= MinContainers
                        && (forall k :: 0 <= k < i ==> |found[k]| < MinContainers)
                        ==> ChosenContainers(found) == found[i]
    ensures (forall i :: 0 <= i < |found| ==> |found[i]| < MinContainers) && found != [] ==>
      ChosenContainers(found) == found[|found| - 1]
    ensures |ChosenContainers(found)| < MinContainers ==> forall i :: 0 <= i < |found| ==> |found[i]| < MinContainers
  {
    FirstInRowIsFirst(found, EnoughContainers, 0);
  }

  /** The selector loop: take each selector's containers in turn, stopping
      at the first list of three or more. */
  method ChooseContainers(found: seq<seq<ProductContainer>>) returns (products: seq<ProductContainer>)
    ensures products == ChosenContainers(found)
  {
    products := [];
    for i := 0 to |found|
      invariant FirstInRow(found, EnoughContainers, 0) == FirstInRow(found, EnoughContainers, i)
      invariant products == if i == 0 then [] else found[i - 1]
    {
      products := found[i];
      if |products| >= MinContainers {
        return;
      }
    }
  }

  // ---------------------------------------------------------------------------
  // extract_comprehensive_product_data: the records

  /** One entry of `products_data`: the 1-based position of the container
      among those processed, its title and its price. */
  datatype ProductInfo = ProductInfo(index: nat, title: string, price: Option<nat>)

  /** The records of the containers `cs`, given how a container's title and
      price are read: one per container that has a title, in order. */
  function Kept<C>(cs: seq<C>, titleOf: C -> Option<string>, priceOf: C -> Option<nat>): (r: seq<ProductInfo>)
    ensures |r| <= |cs|
  {
    if cs == [] then []
    else
      var c := cs[|cs| - 1];
      Kept(cs[..|cs| - 1], titleOf, priceOf)
        + if titleOf(c).Some? then [ProductInfo(|cs|, titleOf(c).value, priceOf(c))] else []
  }

  /** Reading one more container adds its record, if it has a title. */
  lemma KeptStep<C>(cs: seq<C>, titleOf: C -> Option<string>, priceOf: C -> Option<nat>, i: nat)
    requires i < |cs|
    ensures Kept(cs[..i + 1], titleOf, priceOf) == Kept(cs[..i], titleOf, priceOf)
      + if titleOf(cs[i]).Some? then [ProductInfo(i + 1, titleOf(cs[i]).value, priceOf(cs[i]))] else []
  {
    assert cs[..i + 1][..i] == cs[..i];
  }

  /** Every record is the title and price of the container at its index. */
  lemma {:induction false} KeptSound<C>(cs: seq<C>, titleOf: C -> Option<string>, priceOf: C -> Option<nat>)
    ensures forall k :: 0 <= k < |Kept(cs, titleOf, priceOf)| ==>
      var r := Kept(cs, titleOf, priceOf)[k];
      && 1 <= r.index <= |cs|
      && titleOf(cs[r.index - 1]) == Some(r.title)
      && r.price == priceOf(cs[r.index - 1])
  {
    if cs != [] {
      var front := cs[..|cs| - 1];
      KeptSound(front, titleOf, priceOf);
      var r := Kept(cs, titleOf, priceOf);
      var f := Kept(front, titleOf, priceOf);
      forall k | 0 <= k < |f|
        ensures r[k] == f[k] && cs[f[k].index - 1] == front[f[k].index - 1]
      {
      }
    }
  }

  /** The record indices strictly increase: records keep container order. */
  lemma {:induction false} KeptOrdered<C>(cs: seq<C>, titleOf: C -> Option<string>, priceOf: C -> Option<nat>)
    ensures forall k :: 0 <= k < |Kept(cs, titleOf, priceOf)| ==> Kept(cs, titleOf, priceOf)[k].index <= |cs|
    ensures forall k, l :: 0 <= k < l < |Kept(cs, titleOf, priceOf)| ==>
      Kept(cs, titleOf, priceOf)[k].index < Kept(cs, titleOf, priceOf)[l].index
  {
    if cs != [] {
      var front := cs[..|cs| - 1];
      KeptOrdered(front, titleOf, priceOf);
      var r := Kept(cs, titleOf, priceOf);
      var f := Kept(front, titleOf, priceOf);
      assert forall k :: 0 <= k < |f| ==> r[k] == f[k];
    }
  }

  /** Every container with a title has its record. */
  lemma {:induction false} KeptComplete<C>(cs: seq<C>, titleOf: C -> Option<string>, priceOf: C -> Option<nat>)
    ensures forall i :: 0 <= i < |cs| && titleOf(cs[i]).Some? ==>
      exists k :: 0 <= k < |Kept(cs, titleOf, priceOf)| && Kept(cs, titleOf, priceOf)[k].index == i + 1
  {
    if cs != [] {
      var front := cs[..|cs| - 1];
      KeptComplete(front, titleOf, priceOf);
      var r := Kept(cs, titleOf, priceOf);
      var f := Kept(front, titleOf, priceOf);
      forall i | 0 <= i < |cs| && titleOf(cs[i]).Some?
        ensures exists k :: 0 <= k < |r| && r[k].index == i + 1
      {
        if i < |front| {
          assert cs[i] == front[i];
          var k :| 0 <= k < |f| && f[k].index == i + 1;
          assert r[k] == f[k];
        } else {
          assert r == f + [ProductInfo(|cs|, titleOf(cs[i]).value, priceOf(cs[i]))];
          assert r[|f|].index == i + 1;
        }
      }
      assert forall i :: 0 <= i < |cs| && titleOf(cs[i]).Some? ==>
        exists k :: 0 <= k < |r| && r[k].index == i + 1;
      assert r == Kept(cs, titleOf, priceOf);
    }
  }

  /** The records of containers read by extract_product_title and
      extract_product_price. */
  function Records(cs: seq<ProductContainer>): seq<ProductInfo>
  {
    Kept(cs, ExtractProductTitle, ExtractProductPrice)
  }

  /** Records inherit the bounds of the readers: a title longer than
      `minTitle` and a price within [lo, hi] when there is one. */
  lemma KeptBounded<C>(cs: seq<C>, titleOf: C -> Option<string>, priceOf: C -> Option<nat>,
                       minTitle: nat, lo: nat, hi: nat)
    requires forall c :: titleOf(c).Some? ==> |titleOf(c).value| > minTitle
    requires forall c :: priceOf(c).Some? ==> lo <= priceOf(c).value <= hi
    ensures forall k :: 0 <= k < |Kept(cs, titleOf, priceOf)| ==>
      && |Kept(cs, titleOf, priceOf)[k].title| > minTitle
      && (Kept(cs, titleOf, priceOf)[k].price.Some? ==> lo <= Kept(cs, titleOf, priceOf)[k].price.value <= hi)
  {
    KeptSound(cs, titleOf, priceOf);
    forall k | 0 <= k < |Kept(cs, titleOf, priceOf)|
      ensures |Kept(cs, titleOf, priceOf)[k].title| > minTitle
      ensures Kept(cs, titleOf, priceOf)[k].price.Some? ==> lo <= Kept(cs, titleOf, priceOf)[k].price.value <= hi
    {
      var c := cs[Kept(cs, titleOf, priceOf)[k].index - 1];
      assert titleOf(c).Some?;
    }
  }

  /** Every record's title is longer than ten characters and its price, when
      found, lies in [50, 1000000]. */
  lemma RecordsInRange(cs: seq<ProductContainer>)
    ensures forall k :: 0 <= k < |Records(cs)| ==>
      && |Records(cs)[k].title| > MinTitleLength
      && (Records(cs)[k].price.Some? ==> MinProductPrice <= Records(cs)[k].price.value <= MaxProductPrice)
  {
    KeptBounded(cs, ExtractProductTitle, ExtractProductPrice, MinTitleLength, MinProductPrice, MaxProductPrice);
  }

  /** extract_comprehensive_product_data, with the rating, availability,
      image and Prime fields left out: choose the containers, then keep a
      record for each of the first `maxProducts` that has a title. */
  method ExtractComprehensiveProductData(found: seq<seq<ProductContainer>>, maxProducts: nat)
    returns (data: seq<ProductInfo>)
    ensures data == Records(Take(ChosenContainers(found), maxProducts))
  {
    var products := ChooseContainers(found);
    if products == [] {
      return [];
    }
    data := CollectRecords(Take(products, maxProducts), ExtractProductTitle, ExtractProductPrice);
  }

  /** The loop of extract_comprehensive_product_data over the containers
      `shown`, reading each with `titleOf` and `priceOf`: each one with a
      title gives the record of its 1-based index. */
  method CollectRecords<C>(shown: seq<C>, titleOf: C -> Option<string>, priceOf: C -> Option<nat>)
    returns (data: seq<ProductInfo>)
    ensures data == Kept(shown, titleOf, priceOf)
  {
    data := [];
    for i := 0 to |shown|
      invariant data == Kept(shown[..i], titleOf, priceOf)
    {
      KeptStep(shown, titleOf, priceOf, i);
      var title := titleOf(shown[i]);
      if title.Some? {
        data := data + [ProductInfo(i + 1, title.value, priceOf(shown[i]))];
      }
    }
    assert shown[..|shown|] == shown;
  }

  /** The records as the validator reads them. */
  function AsProducts(data: seq<ProductInfo>): (ps: seq<Product>)
    ensures |ps| == |data|
    ensures forall k :: 0 <= k < |ps| ==> ps[k].title == Present(data[k].title)
    ensures forall k :: 0 <= k < |ps| ==> ps[k].price == if data[k].price.Some? then Some(data[k].price.value as int) else None
  {
    seq(|data|, k requires 0 <= k < |data| =>
      Product(Present(data[k].title), if data[k].price.Some? then Some(data[k].price.value as int) else None))
  }

  /** The extracted records can always be validated: every title is present,
      and a record counts as priced exactly when a price was found. */
  lemma RecordsValidate(cs: seq<ProductContainer>, expectedMax: int, tolerance: int)
    ensures TitlesUsable(AsProducts(Records(cs)), expectedMax, tolerance)
    ensures forall k :: 0 <= k < |Records(cs)| ==> (HasPrice(AsProducts(Records(cs))[k]) <==> Records(cs)[k].price.Some?)
  {
    RecordsInRange(cs);
  }

  // ---------------------------------------------------------------------------
  // intelligent_popup_dismissal (the backup copy)

  const BackupPopupSelectors: seq<string> := [
    "//button[contains(text(), 'Continue shopping')]",
    "//span[contains(text(), 'Continue shopping')]/parent::button",
    "//a[contains(text(), 'Continue shopping')]",
    "//button[contains(text(), 'Close')]",
    "//button[contains(text(), 'No thanks')]",
    "//button[contains(text(), 'Not now')]",
    "//button[contains(text(), 'Skip')]",
    "//button[contains(text(), 'Maybe later')]",
    ".a-modal-close",
    ".a-button-close",
    "[data-action='close']",
    "[aria-label*='Close']"
  ]

  const BackupPopupPasses := 3

  /** A popup candidate of the backup copy: displayed, enabled, whether
      scrolling it into view and the native click work, and whether the
      script click works. */
  datatype BackupPopup = BackupPopup(displayed: bool, enabled: bool, scrolls: bool, clicks: bool, scriptClicks: bool)

  /** Dismissed when displayed and enabled and either the scroll and the
      click both work or, after one of them raised, the script click does. */
  predicate BackupDismisses(e: BackupPopup) {
    e.displayed && e.enabled && ((e.scrolls && e.clicks) || e.scriptClicks)
  }

  /** One pass: the first element, selector by selector, that is dismissed. */
  method BackupDismissalPass(page: seq<seq<BackupPopup>>) returns (hit: Option<(nat, nat)>)
    ensures hit == FirstHit(page, BackupDismisses)
  {
    for i := 0 to |page|
      invariant FirstFrom(page, BackupDismisses, 0) == FirstFrom(page, BackupDismisses, i)
    {
      for j := 0 to |page[i]|
        invariant FirstInRow(page[i], BackupDismisses, 0) == FirstInRow(page[i], BackupDismisses, j)
      {
        var e := page[i][j];
        if e.displayed && e.enabled {
          if e.scrolls && e.clicks {
            return Some((i, j));
          } else if e.scriptClicks {
            return Some((i, j));
          }
        }
      }
    }
    return None;
  }

  /** intelligent_popup_dismissal of the backup copy: at most three passes,
      one dismissal each, ending after a pass that dismisses nothing; the
      answer is the number dismissed. */
  method BackupPopupDismissal(pages: seq<seq<seq<BackupPopup>>>) returns (count: nat)
    ensures count == |Dismissals(pages, BackupDismisses, BackupPopupPasses)|
    ensures count <= BackupPopupPasses
  {
    count := 0;
    ghost var dismissed: seq<(nat, nat)> := [];
    var attempt := 0;
    while attempt < BackupPopupPasses
      invariant attempt <= BackupPopupPasses
      invariant count == |dismissed| == attempt
      invariant dismissed + DismissalsFrom(pages, BackupDismisses, attempt, BackupPopupPasses)
             == Dismissals(pages, BackupDismisses, BackupPopupPasses)
    {
      var hit := BackupDismissalPass(PageAt(pages, attempt));
      if hit.None? {
        break;
      }
      DismissalsFromStep(pages, BackupDismisses, attempt, BackupPopupPasses);
      ghost var later := DismissalsFrom(pages, BackupDismisses, attempt + 1, BackupPopupPasses);
      assert (dismissed + [hit.value]) + later == dismissed + ([hit.value] + later);
      count := count + 1;
      dismissed := dismissed + [hit.value];
      attempt := attempt + 1;
    }
    DismissalsFromStep(pages, BackupDismisses, attempt, BackupPopupPasses);
    DismissalsShape(pages, BackupDismisses, BackupPopupPasses);
  }

  // ---------------------------------------------------------------------------
  // The mouse-interaction test

  /** The number of `true` entries of `s`. */
  function Successes(s: seq<bool>): (n: nat)
    ensures n <= |s|
  {
    if s == [] then 0 else Successes(s[..|s| - 1]) + if s[|s| - 1] then 1 else 0
  }

  const InteractionProducts := 3
  const NavigationProducts := 2

  /** advanced_mouse_interactions: for each of the first three products,
      `hovered[i]` says whether the scroll, the hover and the image hover all
      worked; the answer counts those. */
  method AdvancedMouseInteractions(hovered: seq<bool>) returns (n: nat)
    ensures n == Successes(Take(hovered, InteractionProducts))
    ensures n <= InteractionProducts
  {
    var shown := Take(hovered, InteractionProducts);
    n := 0;
    for i := 0 to |shown|
      invariant n == Successes(shown[..i])
    {
      assert shown[..i + 1][..i] == shown[..i];
      if shown[i] {
        n := n + 1;
      }
    }
    assert shown[..|shown|] == shown;
  }

  /** `interaction_score / len(products[:3])`, or 0 without products. */
  function InteractionRate(score: nat, productCount: nat): real
  {
    var shown := if productCount < InteractionProducts then productCount else InteractionProducts;
    if shown > 0 then score as real / shown as real else 0.0
  }

  /** `navigation_successful / 2`. */
  function NavigationRate(navigated: nat): real
  {
    navigated as real / NavigationProducts as real
  }

  /** The two assertions of the test: interaction rate at least 0.6 and
      navigation rate at least 0.5. */
  predicate InteractionTestPasses(score: nat, navigated: nat, productCount: nat) {
    InteractionRate(score, productCount) >= 0.6 && NavigationRate(navigated) >= 0.5
  }

  /** With the three products the test insists on, it passes exactly when
      two of the three hovers worked and one of the two product pages
      loaded; without products it always fails. */
  lemma InteractionThresholds(score: nat, navigated: nat, productCount: nat)
    ensures productCount >= InteractionProducts ==>
      (InteractionTestPasses(score, navigated, productCount) <==> score >= 2 && navigated >= 1)
    ensures productCount == 0 ==> !InteractionTestPasses(score, navigated, productCount)
  {
    if productCount >= InteractionProducts {
      var r := InteractionRate(score, productCount);
      assert r * 3.0 == score as real;
    }
  }
}
