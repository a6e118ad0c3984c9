/** The per-product extraction rules of the two big test files:
    `extract_product_title` (identical in both) and `extract_product_price`,
    whose backup copy reads digits while the copy in the main file writes its
    pattern as `r'[\\d,]+'`, a class of backslash, `d` and comma, so that its
    match never converts to an integer. The rules run against what a product
    container's selectors find. */
module ProductExtraction {
  import opened Wrappers
  import opened Text
  import opened Scan

  const TitleSelectors: seq<string> := [
    "h2 a span",
    ".a-link-normal .a-text-normal",
    "[data-cy='title-recipe-fixer']",
    ".s-size-mini .a-color-base",
    "h2 .a-link-normal"
  ]

  const ProductPriceSelectors: seq<string> := [
    ".a-price-whole",
    ".a-price .a-offscreen",
    ".a-price-range .a-offscreen",
    ".a-price-symbol + .a-price-whole"
  ]

  const MinProductPrice := 50
  const MaxProductPrice := 1000000
  const MinTitleLength := 10

  /** A price element found in a container: its `.text` and its
      `textContent` attribute (`None` when absent). */
  datatype PriceReading = PriceReading(text: string, textContent: Option<string>)

  /** What a container's selectors find: for each title selector the element
      text (`None` when `find_element` raised), and for each price selector
      the element (`None` when it raised). */
  datatype ProductContainer = ProductContainer(titleTexts: seq<Option<string>>, priceReadings: seq<Option<PriceReading>>)

  /** A title candidate is kept when, stripped, it is longer than ten
      characters. */
  predicate UsableTitle(t: Option<string>) {
    t.Some? && |Strip(t.value)| > MinTitleLength
  }

  /** extract_product_title: the stripped text of the first title selector
      whose stripped text is longer than ten characters. */
  function ExtractProductTitle(c: ProductContainer): (r: Option<string>)
    ensures r.Some? ==> |r.value| > MinTitleLength
  {
    match FirstInRow(c.titleTexts, UsableTitle, 0)
    case None => None
    case Some(j) => Some(Strip(c.titleTexts[j].value))
  }

  /** No title exactly when no selector gives a usable text; otherwise the
      title is the stripped text of a selector that gives one, and no earlier
      selector does. */
  lemma TitleIsFirstUsable(c: ProductContainer)
    ensures ExtractProductTitle(c).None? <==> forall j :: 0 <= j < |c.titleTexts| ==> !UsableTitle(c.titleTexts[j])
    ensures ExtractProductTitle(c).Some? ==>
      var j := FirstInRow(c.titleTexts, UsableTitle, 0).value;
      && j < |c.titleTexts|
      && UsableTitle(c.titleTexts[j])
      && ExtractProductTitle(c).value == Strip(c.titleTexts[j].value)
      && forall i :: 0 <= i < j ==> !UsableTitle(c.titleTexts[i])
  {
    FirstInRowIsFirst(c.titleTexts, UsableTitle, 0);
  }

  /** `element.text.strip() or element.get_attribute("textContent").strip()`:
      `None` where the attribute is absent and `.strip()` on it raises. */
  function PriceTextOf(r: PriceReading): (t: Option<string>)
    ensures Strip(r.text) != [] ==> t == Some(Strip(r.text))
    ensures Strip(r.text) == [] ==> t == if r.textContent.Some? then Some(Strip(r.textContent.value)) else None
  {
    if Strip(r.text) != [] then Some(Strip(r.text))
    else if r.textContent.Some? then Some(Strip(r.textContent.value))
    else None
  }

  /** The price one selector's lookup yields in the backup copy: commas
      removed, first digit run, kept when in [50, 1000000]. */
  function LookupPrice(l: Option<PriceReading>): (p: Option<nat>)
    ensures l.None? || PriceTextOf(l.value).None? ==> p.None?
    ensures l.Some? && PriceTextOf(l.value).Some? ==>
      p == ParsePrice(PriceTextOf(l.value).value, MinProductPrice, MaxProductPrice)
    ensures p.Some? ==> MinProductPrice <= p.value <= MaxProductPrice
  {
    if l.None? then None
    else match PriceTextOf(l.value)
      case None => None
      case Some(t) => ParsePrice(t, MinProductPrice, MaxProductPrice)
  }

  predicate Priced(l: Option<PriceReading>) {
    LookupPrice(l).Some?
  }

  /** extract_product_price (tests/test_amazon_complete_backup.py): the price
      of the first price selector whose text has a first digit run in
      [50, 1000000]. */
  function ExtractProductPrice(c: ProductContainer): (r: Option<nat>)
    ensures r.Some? ==> MinProductPrice <= r.value <= MaxProductPrice
  {
    match FirstInRow(c.priceReadings, Priced, 0)
    case None => None
    case Some(j) => LookupPrice(c.priceReadings[j])
  }

  /** No price exactly when no selector yields one; otherwise the price is
      the one of a selector that yields one, and no earlier selector does,
      so an out-of-range or unreadable selector moves the search on. */
  lemma PriceIsFirstPriced(c: ProductContainer)
    ensures ExtractProductPrice(c).None? <==> forall j :: 0 <= j < |c.priceReadings| ==> !Priced(c.priceReadings[j])
    ensures ExtractProductPrice(c).Some? ==>
      var j := FirstInRow(c.priceReadings, Priced, 0).value;
      && j < |c.priceReadings|
      && ExtractProductPrice(c) == LookupPrice(c.priceReadings[j])
      && forall i :: 0 <= i < j ==> !Priced(c.priceReadings[i])
  {
    FirstInRowIsFirst(c.priceReadings, Priced, 0);
  }

  // ---------------------------------------------------------------------------
  // The copy in tests/test_amazon_complete.py

  /** A character of the class `[\\d,]`: backslash, `d` or comma. */
  predicate InWrittenClass(c: char) {
    c == '\\' || c == 'd' || c == ','
  }

  /** The longest prefix of `s` made of class characters. */
  function LeadingClassRun(s: string): (r: string)
    ensures |r| <= |s| && r == s[..|r|]
    ensures forall k :: 0 <= k < |r| ==> InWrittenClass(r[k])
  {
    if s == [] || !InWrittenClass(s[0]) then [] else [s[0]] + LeadingClassRun(s[1..])
  }

  /** The first match of `[\\d,]+` in `s`: the maximal class run at the first
      class character; `None` when `s` has none. */
  function FirstClassRun(s: string): (r: Option<string>)
    ensures r.None? <==> forall k :: 0 <= k < |s| ==> !InWrittenClass(s[k])
    ensures r.Some? ==> r.value != [] && forall k :: 0 <= k < |r.value| ==> InWrittenClass(r.value[k])
    decreases |s|
  {
    if s == [] then None
    else if InWrittenClass(s[0]) then Some(LeadingClassRun(s))
    else FirstClassRun(s[1..])
  }

  /** `int(run)` for a run of class characters (no sign, space or
      underscore can occur in one): a value only for a string of digits;
      `None` stands for the ValueError. */
  function IntOfRun(run: string): (v: Option<nat>)
    ensures v.Some? ==> run != [] && AllDigits(run)
  {
    if run != [] && AllDigits(run) then Some(DigitsValue(run)) else None
  }

  /** The price one lookup yields in the main file's copy. */
  function WrittenLookupPrice(l: Option<PriceReading>): Option<nat>
  {
    if l.None? then None
    else match PriceTextOf(l.value)
      case None => None
      case Some(t) =>
        match FirstClassRun(RemoveCommas(t))
        case None => None
        case Some(run) =>
          match IntOfRun(RemoveCommas(run))
          case None => None
          case Some(v) => if MinProductPrice <= v <= MaxProductPrice then Some(v) else None
  }

  function FirstWrittenPrice(ls: seq<Option<PriceReading>>, k: nat): Option<nat>
    decreases |ls| - k
  {
    if k >= |ls| then None
    else if WrittenLookupPrice(ls[k]).Some? then WrittenLookupPrice(ls[k])
    else FirstWrittenPrice(ls, k + 1)
  }

  /** extract_product_price as written in tests/test_amazon_complete.py. */
  function ExtractProductPriceAsWritten(c: ProductContainer): Option<nat>
  {
    FirstWrittenPrice(c.priceReadings, 0)
  }

  /** No lookup of the main file's copy yields a price: a class run starts
      with a backslash or a `d` once commas are gone, and `int()` refuses it. */
  lemma WrittenLookupNeverPrices(l: Option<PriceReading>)
    ensures WrittenLookupPrice(l).None?
  {
    if l.Some? && PriceTextOf(l.value).Some? {
      var t := PriceTextOf(l.value).value;
      var s := RemoveCommas(t);
      if FirstClassRun(s).Some? {
        var run := FirstClassRun(s).value;
        var digitsOnly := RemoveCommas(run);
        if digitsOnly != [] {
          RemoveCommasKeepsClass(run);
          assert !IsDigit(digitsOnly[0]);
        }
      }
    }
  }

  lemma {:induction false} RemoveCommasKeepsClass(s: string)
    requires forall k :: 0 <= k < |s| ==> InWrittenClass(s[k])
    ensures forall k :: 0 <= k < |RemoveCommas(s)| ==> RemoveCommas(s)[k] == '\\' || RemoveCommas(s)[k] == 'd'
  {
    if s != [] {
      RemoveCommasKeepsClass(s[1..]);
    }
  }

  /** The main file's extract_product_price returns `None` for every
      container. */
  lemma {:induction false} AsWrittenNeverFindsPrice(c: ProductContainer)
    ensures ExtractProductPriceAsWritten(c).None?
  {
    FirstWrittenNeverPrices(c.priceReadings, 0);
  }

  lemma {:induction false} FirstWrittenNeverPrices(ls: seq<Option<PriceReading>>, k: nat)
    ensures FirstWrittenPrice(ls, k).None?
    decreases |ls| - k
  {
    if k < |ls| {
      WrittenLookupNeverPrices(ls[k]);
      FirstWrittenNeverPrices(ls, k + 1);
    }
  }

  lemma StripPlain1299()
    ensures Strip("1299") == "1299"
  {
    assert !IsSpace("1299"[0]);
    assert LeadingSpace("1299") == 0;
    assert !IsSpace("1299"[3]);
    assert TrailingStart("1299") == 4;
    assert "1299"[0..4] == "1299";
  }

  lemma DigitsValue1299()
    ensures AllDigits("1299") && DigitsValue("1299") == 1299
  {
    assert "1"[..0] == "";
    assert DigitsValue("1") == 1;
    assert "12"[..1] == "1";
    assert DigitsValue("12") == 12;
    assert "129"[..2] == "12";
    assert DigitsValue("129") == 129;
    assert "1299"[..3] == "129";
  }

  lemma FirstDigitRun1299()
    ensures FirstDigitRun("1299") == Some("1299")
  {
    assert DigitRunStart("1299") == 0;
    assert "1299"[0..] == "1299";
    assert "9"[1..] == "" && LeadingDigits("") == "";
    assert LeadingDigits("9") == "9";
    assert "99"[1..] == "9";
    assert LeadingDigits("99") == "99";
    assert "299"[1..] == "99";
    assert LeadingDigits("299") == "299";
    assert "1299"[1..] == "299";
    assert LeadingDigits("1299") == "1299";
  }

  lemma ParsePrice1299()
    ensures ParsePrice("1299", MinProductPrice, MaxProductPrice) == Some(1299)
  {
    assert ',' !in "1299";
    assert RemoveCommas("1299") == "1299";
    FirstDigitRun1299();
    DigitsValue1299();
  }

  /** A container whose only price element reads "1299": the backup rule
      reads 1299, the main file's copy reads nothing. */
  lemma PriceRegexCounterexample()
    ensures ExtractProductPrice(ProductContainer([], [Some(PriceReading("1299", None))])) == Some(1299)
    ensures ExtractProductPriceAsWritten(ProductContainer([], [Some(PriceReading("1299", None))])).None?
  {
    var l := Some(PriceReading("1299", None));
    Lookup1299();
    assert FirstInRow([l], Priced, 0) == Some(0);
    AsWrittenNeverFindsPrice(ProductContainer([], [l]));
  }

  lemma Lookup1299()
    ensures LookupPrice(Some(PriceReading("1299", None))) == Some(1299)
  {
    var l := PriceReading("1299", None);
    PriceText1299();
    assert PriceTextOf(l) == Some("1299");
    ParsePrice1299();
    LookupOfText(l, "1299");
  }

  lemma LookupOfText(r: PriceReading, t: string)
    requires PriceTextOf(r) == Some(t)
    ensures LookupPrice(Some(r)) == ParsePrice(t, MinProductPrice, MaxProductPrice)
  {
  }

  lemma PriceText1299()
    ensures PriceTextOf(PriceReading("1299", None)) == Some("1299")
  {
    StripPlain1299();
  }
}
