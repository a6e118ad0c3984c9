/** The side-effect-free logic of tests/test_amazon_complete.py: the search
    relevance score, `measure_performance`, the priority-ordered choice of
    languages and the fallback price scan of `test_price_validation`. The
    price validators live in PriceValidation, the per-product extraction in
    ProductExtraction. */
module AmazonComplete {
  import opened Wrappers
  import opened Text
  import opened TestHelpers
  import opened PriceValidation
  import opened Ratio

  // ---------------------------------------------------------------------------
  // calculate_search_relevance

  /** `[word.lower() for word in ws if len(word) > 2]`: a single word is
      kept, lowered, exactly when it is longer than two characters, and a
      list is filtered piece by piece (LongWordsAppend), so the kept words
      are the long ones, lowered, in their order. */
  function LongWords(ws: seq<string>): (r: seq<string>)
    ensures |r| <= |ws|
    ensures forall k :: 0 <= k < |r| ==> |r[k]| > 2
    ensures |ws| == 1 ==> r == if |ws[0]| > 2 then [Lower(ws[0])] else []
  {
    if ws == [] then []
    else (if |ws[0]| > 2 then [Lower(ws[0])] else []) + LongWords(ws[1..])
  }

  lemma {:induction false} LongWordsAppend(a: seq<string>, b: seq<string>)
    ensures LongWords(a + b) == LongWords(a) + LongWords(b)
    decreases |a|
  {
    if a == [] {
      assert a + b == b;
    } else {
      assert (a + b)[1..] == a[1..] + b;
      LongWordsAppend(a[1..], b);
    }
  }

  /** Every word longer than two characters is searched for, lowered, and
      every search word is such a word. */
  lemma {:induction false} LongWordsMembers(ws: seq<string>)
    ensures forall k :: 0 <= k < |ws| && |ws[k]| > 2 ==> Lower(ws[k]) in LongWords(ws)
    ensures forall w :: w in LongWords(ws) ==> exists k :: 0 <= k < |ws| && |ws[k]| > 2 && w == Lower(ws[k])
    decreases |ws|
  {
    if ws != [] {
      LongWordsMembers(ws[1..]);
      assert forall k :: 1 <= k < |ws| ==> ws[k] == ws[1..][k - 1];
    }
  }

  /** The words a title is searched for. */
  function SearchWords(term: string): seq<string>
  {
    LongWords(Words(term))
  }

  /** `product.get("title")` is truthy and its lower-cased text contains one
      of the search words. */
  predicate Relevant(p: Product, words: seq<string>) {
    p.title.Present? && p.title.value != []
      && exists k :: 0 <= k < |words| && Contains(Lower(p.title.value), words[k])
  }

  /** The number of relevant products. */
  function RelevantCount(ps: seq<Product>, words: seq<string>): (n: nat)
    ensures n <= |ps|
  {
    if ps == [] then 0
    else RelevantCount(ps[..|ps| - 1], words) + if Relevant(ps[|ps| - 1], words) then 1 else 0
  }

  /** `score` is the share of `ps`, as a percentage, that is relevant to
      `words`. */
  predicate ScoresAs(score: real, ps: seq<Product>, words: seq<string>) {
    score * |ps| as real == 100.0 * RelevantCount(ps, words) as real
  }

  /** The share of `ps`, as a percentage, that is relevant to `words`. */
  method RelevanceScore(ps: seq<Product>, words: seq<string>) returns (score: real)
    requires ps != []
    ensures ScoresAs(score, ps, words)
    ensures 0.0 <= score <= 100.0
  {
    var relevant := CountRelevant(ps, words);
    score := Percent(relevant, |ps|);
  }

  /** The loop of calculate_search_relevance counting relevant products. */
  method CountRelevant(ps: seq<Product>, words: seq<string>) returns (relevant: nat)
    ensures relevant == RelevantCount(ps, words)
  {
    relevant := 0;
    for i := 0 to |ps|
      invariant relevant == RelevantCount(ps[..i], words)
    {
      RelevantCountStep(ps, words, i);
      if Relevant(ps[i], words) {
        relevant := relevant + 1;
      }
    }
    assert ps[..|ps|] == ps;
  }

  lemma RelevantCountStep(ps: seq<Product>, words: seq<string>, i: nat)
    requires i < |ps|
    ensures RelevantCount(ps[..i + 1], words) == RelevantCount(ps[..i], words) + if Relevant(ps[i], words) then 1 else 0
  {
    assert ps[..i + 1][..i] == ps[..i];
  }

  /** calculate_search_relevance: 0 without products or with a blank term;
      otherwise the percentage of products whose lower-cased title contains
      some lower-cased term word longer than two characters. */
  method CalculateSearchRelevance(term: string, ps: seq<Product>) returns (score: real)
    ensures ps == [] || Strip(term) == [] ==> score == 0.0
    ensures ps != [] && Strip(term) != [] ==> ScoresAs(score, ps, SearchWords(term))
    ensures 0.0 <= score <= 100.0
  {
    if ps == [] || Strip(term) == [] {
      score := 0.0;
    } else {
      score := RelevanceScore(ps, SearchWords(term));
    }
  }

  /** Every product counts exactly when all are relevant, and none counts
      when the term has no word longer than two characters. */
  lemma {:induction false} RelevantCountExtremes(ps: seq<Product>, words: seq<string>)
    ensures RelevantCount(ps, words) == |ps| <==> forall k :: 0 <= k < |ps| ==> Relevant(ps[k], words)
    ensures words == [] ==> RelevantCount(ps, words) == 0
  {
    if ps != [] {
      var front := ps[..|ps| - 1];
      RelevantCountExtremes(front, words);
      assert forall k :: 0 <= k < |front| ==> ps[k] == front[k];
    }
  }

  /** A term made only of words of at most two characters scores no
      product. */
  lemma {:induction false} ShortWordsAreIgnored(ws: seq<string>)
    requires forall k :: 0 <= k < |ws| ==> |ws[k]| <= 2
    ensures LongWords(ws) == []
  {
    if ws != [] {
      ShortWordsAreIgnored(ws[1..]);
    }
  }

  // ---------------------------------------------------------------------------
  // measure_performance

  /** What the measured operation does: return a value or raise. */
  datatype Outcome<T> = Returned(value: T) | Raised(message: string)

  /** The dictionary measure_performance returns. */
  datatype Measurement<T> = Measurement(success: bool, time: real, result: Option<T>, error: Option<string>)

  /** measure_performance never raises: success carries the operation's
      result unchanged, an exception its message; either way the elapsed
      time (measured outside the model) is reported. */
  function MeasurePerformance<T>(outcome: Outcome<T>, elapsed: real): (m: Measurement<T>)
    ensures m.success <==> outcome.Returned?
    ensures m.time == elapsed
    ensures m.success ==> m.result == Some(outcome.value) && m.error.None?
    ensures !m.success ==> m.result.None? && m.error == Some(outcome.message)
  {
    match outcome
    case Returned(v) => Measurement(true, elapsed, Some(v), None)
    case Raised(e) => Measurement(false, elapsed, None, Some(e))
  }

  // ---------------------------------------------------------------------------
  // The language priority of the language-switch test

  const PriorityLanguages: seq<string> := ["hindi", "tamil", "english", "telugu", "kannada"]
  const LanguagesPerRun := 2

  /** The languages of `langs` that are available, in order. */
  function AvailableInOrder(langs: seq<string>, available: set<string>): (r: seq<string>)
    ensures |r| <= |langs|
    ensures forall k :: 0 <= k < |r| ==> r[k] in available && r[k] in langs
  {
    if langs == [] then []
    else
      var last := langs[|langs| - 1];
      var front := AvailableInOrder(langs[..|langs| - 1], available);
      assert forall k :: 0 <= k < |front| ==> front[k] in langs;
      front + if last in available then [last] else []
  }

  lemma TakeAppendOne(a: seq<string>, x: string, n: nat)
    ensures Take(a + [x], n) == if |a| < n then a + [x] else Take(a, n)
  {
    if |a| >= n {
      assert (a + [x])[..n] == a[..n];
    }
  }

  /** The priority loop: walk the priority list and keep each available
      language while fewer than two are kept. */
  method LanguagesToTest(available: set<string>) returns (chosen: seq<string>)
    ensures chosen == Take(AvailableInOrder(PriorityLanguages, available), LanguagesPerRun)
  {
    chosen := [];
    for i := 0 to |PriorityLanguages|
      invariant chosen == Take(AvailableInOrder(PriorityLanguages[..i], available), LanguagesPerRun)
    {
      var lang := PriorityLanguages[i];
      assert PriorityLanguages[..i + 1][..i] == PriorityLanguages[..i];
      ghost var before := AvailableInOrder(PriorityLanguages[..i], available);
      TakeAppendOne(before, lang, LanguagesPerRun);
      if lang in available && |chosen| < LanguagesPerRun {
        chosen := chosen + [lang];
      }
    }
    assert PriorityLanguages[..|PriorityLanguages|] == PriorityLanguages;
  }

  /** At most two languages are tested, all available, without repetition
      and in priority order; Hindi comes first whenever it is available;
      and fewer than two are tested only when fewer than two priority
      languages are available. */
  lemma LanguageChoice(available: set<string>)
    ensures var chosen := Take(AvailableInOrder(PriorityLanguages, available), LanguagesPerRun);
      && |chosen| <= LanguagesPerRun
      && (forall k :: 0 <= k < |chosen| ==> chosen[k] in available && chosen[k] in PriorityLanguages)
      && (forall k, l :: 0 <= k < l < |chosen| ==> Rank(chosen[k]) < Rank(chosen[l]) && chosen[k] != chosen[l])
      && ("hindi" in available ==> chosen != [] && chosen[0] == "hindi")
      && (|chosen| < LanguagesPerRun ==> chosen == AvailableInOrder(PriorityLanguages, available))
  {
    var all := AvailableInOrder(PriorityLanguages, available);
    RanksIncrease(available, |PriorityLanguages|);
    assert PriorityLanguages[..|PriorityLanguages|] == PriorityLanguages;
    if "hindi" in available {
      HindiLeads(available);
    }
  }

  /** The position of a priority language in the priority list. */
  function Rank(lang: string): (i: nat)
    requires lang in PriorityLanguages
    ensures i < |PriorityLanguages| && PriorityLanguages[i] == lang
  {
    if lang == "hindi" then 0
    else if lang == "tamil" then 1
    else if lang == "english" then 2
    else if lang == "telugu" then 3
    else 4
  }

  /** The priority languages are distinct, so each is at its own rank. */
  lemma RankOf(j: nat)
    requires j < |PriorityLanguages|
    ensures Rank(PriorityLanguages[j]) == j
  {
  }

  /** `r` lists priority languages in strictly increasing rank. */
  predicate InRankOrder(r: seq<string>) {
    && (forall k :: 0 <= k < |r| ==> r[k] in PriorityLanguages)
    && (forall k, l :: 0 <= k < l < |r| ==> Rank(r[k]) < Rank(r[l]))
  }

  /** The available languages of a priority prefix come in strictly
      increasing priority rank, all below the prefix's length. */
  lemma {:induction false} RanksIncrease(available: set<string>, n: nat)
    requires n <= |PriorityLanguages|
    ensures var r := AvailableInOrder(PriorityLanguages[..n], available);
      InRankOrder(r) && forall k :: 0 <= k < |r| ==> Rank(r[k]) < n
    decreases n
  {
    if n > 0 {
      RanksIncrease(available, n - 1);
      var lang := PriorityLanguages[n - 1];
      var front := AvailableInOrder(PriorityLanguages[..n - 1], available);
      var added: seq<string> := if lang in available then [lang] else [];
      assert PriorityLanguages[..n][..n - 1] == PriorityLanguages[..n - 1];
      assert AvailableInOrder(PriorityLanguages[..n], available) == front + added;
      RankOf(n - 1);
      RanksAppend(front, added, n - 1);
    }
  }

  lemma RanksAppend(front: seq<string>, added: seq<string>, m: nat)
    requires InRankOrder(front) && forall k :: 0 <= k < |front| ==> Rank(front[k]) < m
    requires |added| <= 1 && m < |PriorityLanguages|
    requires forall k :: 0 <= k < |added| ==> added[k] == PriorityLanguages[m] && Rank(added[k]) == m
    ensures InRankOrder(front + added) && forall k :: 0 <= k < |front + added| ==> Rank((front + added)[k]) < m + 1
  {
    var r := front + added;
    forall k | 0 <= k < |r|
      ensures r[k] == if k < |front| then front[k] else added[k - |front|]
    {
    }
  }

  /** When Hindi is available it leads the available priority languages. */
  lemma HindiLeads(available: set<string>)
    requires "hindi" in available
    ensures var all := AvailableInOrder(PriorityLanguages, available);
      all != [] && all[0] == "hindi"
  {
    assert PriorityLanguages[..1] == ["hindi"];
    assert PriorityLanguages[..1][..0] == [];
    assert AvailableInOrder(PriorityLanguages[..1], available) == ["hindi"];
    PrefixOfAvailable(available, 1);
  }

  /** The languages of a longer priority prefix extend those of a shorter
      one. */
  lemma {:induction false} PrefixOfAvailable(available: set<string>, n: nat)
    requires n <= |PriorityLanguages|
    ensures var short := AvailableInOrder(PriorityLanguages[..n], available);
      var long := AvailableInOrder(PriorityLanguages, available);
      |short| <= |long| && long[..|short|] == short
    decreases |PriorityLanguages| - n
  {
    if n < |PriorityLanguages| {
      PrefixOfAvailable(available, n + 1);
      assert PriorityLanguages[..n + 1][..n] == PriorityLanguages[..n];
    } else {
      assert PriorityLanguages[..n] == PriorityLanguages;
    }
  }

  // ---------------------------------------------------------------------------
  // The fallback price scan of test_price_validation

  const AlternativePriceSelectors: seq<string> := [
    ".a-price-whole",
    ".a-price .a-offscreen",
    ".a-price-range .a-offscreen",
    "*[class*='price'] *[class*='whole']",
    "*[data-testid*='price']",
    ".a-color-price",
    "*[aria-label*='price']"
  ]

  const InlineMinPrice := 50
  const InlineMaxPrice := 50000
  /** The scan stops once this many prices are collected. */
  const InlineTarget := 5
  /** The scan runs only when fewer prices than this were extracted. */
  const InlineTrigger := 3

  /** A price element found by the scan: displayed or not, its `.text` and
      its `textContent` attribute. */
  datatype InlineElement = InlineElement(displayed: bool, text: string, textContent: Option<string>)

  /** `element.text.strip() or element.get_attribute("textContent") or ""`
      (the attribute is not stripped). */
  function InlineText(e: InlineElement): string
  {
    if Strip(e.text) != [] then Strip(e.text)
    else if e.textContent.Some? then e.textContent.value
    else ""
  }

  /** The entry one element contributes: displayed, and with a first digit
      run in [50, 50000]. */
  function InlineHit(e: InlineElement, selector: string): (r: Option<PriceData>)
    ensures r.Some? ==> InlineMinPrice <= r.value.price <= InlineMaxPrice && r.value.selectorUsed == selector
    ensures r.Some? ==> e.displayed && r.value.originalText == InlineText(e)
    ensures r.Some? <==> e.displayed && ParsePrice(InlineText(e), InlineMinPrice, InlineMaxPrice).Some?
    ensures r.Some? ==> r.value.price == ParsePrice(InlineText(e), InlineMinPrice, InlineMaxPrice).value
  {
    if !e.displayed then None
    else match ParsePrice(InlineText(e), InlineMinPrice, InlineMaxPrice)
      case None => None
      case Some(v) => Some(PriceData(v, InlineText(e), selector))
  }

  /** The entries of one selector's elements, in page order. */
  function RowHits(row: seq<InlineElement>, selector: string): (r: seq<PriceData>)
    ensures forall k :: 0 <= k < |r| ==> InlineMinPrice <= r[k].price <= InlineMaxPrice
  {
    if row == [] then []
    else
      var last := InlineHit(row[|row| - 1], selector);
      RowHits(row[..|row| - 1], selector) + if last.Some? then [last.value] else []
  }

  /** Every entry the scan accepts, in selector order then element order;
      `found[i]` lists the elements of the i-th selector. */
  function Hits(found: seq<seq<InlineElement>>): (r: seq<PriceData>)
    requires |found| <= |AlternativePriceSelectors|
    ensures forall k :: 0 <= k < |r| ==> InlineMinPrice <= r[k].price <= InlineMaxPrice
  {
    if found == [] then []
    else Hits(found[..|found| - 1]) + RowHits(found[|found| - 1], AlternativePriceSelectors[|found| - 1])
  }

  predicate PrefixOf(a: seq<PriceData>, b: seq<PriceData>) {
    |a| <= |b| && b[..|a|] == a
  }

  lemma RowHitsStep(row: seq<InlineElement>, selector: string, j: nat)
    requires j < |row|
    ensures RowHits(row[..j + 1], selector)
      == RowHits(row[..j], selector) + if InlineHit(row[j], selector).Some? then [InlineHit(row[j], selector).value] else []
  {
    assert row[..j + 1][..j] == row[..j];
  }

  lemma HitsStep(found: seq<seq<InlineElement>>, i: nat)
    requires i < |found| <= |AlternativePriceSelectors|
    ensures Hits(found[..i + 1]) == Hits(found[..i]) + RowHits(found[i], AlternativePriceSelectors[i])
  {
    assert found[..i + 1][..i] == found[..i];
  }

  lemma {:induction false} RowHitsGrow(row: seq<InlineElement>, selector: string, j: nat)
    requires j <= |row|
    ensures PrefixOf(RowHits(row[..j], selector), RowHits(row, selector))
    decreases |row|
  {
    if j < |row| {
      var front := row[..|row| - 1];
      RowHitsGrow(front, selector, j);
      assert front[..j] == row[..j];
    } else {
      assert row[..j] == row;
    }
  }

  lemma {:induction false} HitsGrow(found: seq<seq<InlineElement>>, i: nat)
    requires i <= |found| <= |AlternativePriceSelectors|
    ensures PrefixOf(Hits(found[..i]), Hits(found))
    decreases |found|
  {
    if i < |found| {
      var front := found[..|found| - 1];
      HitsGrow(front, i);
      assert front[..i] == found[..i];
    } else {
      assert found[..i] == found;
    }
  }

  /** Once `n` entries are taken, what follows does not matter. */
  lemma TakeOfPrefix(a: seq<PriceData>, b: seq<PriceData>, n: nat)
    requires PrefixOf(a, b) && |a| >= n
    ensures Take(a, n) == Take(b, n)
  {
    assert a[..n] == b[..n];
  }

  /** The fallback scan: when fewer than three prices were extracted, walk
      the seven selectors and their displayed elements in order, appending
      every price in [50, 50000] until five prices are held. The result is
      the extracted prices followed by the first accepted entries of the
      scan, as many as reach five. */
  method InlinePriceFilter(initial: seq<PriceData>, found: seq<seq<InlineElement>>) returns (result: seq<PriceData>)
    requires |found| == |AlternativePriceSelectors|
    ensures |initial| >= InlineTrigger ==> result == initial
    ensures |initial| < InlineTrigger ==> result == initial + Take(Hits(found), InlineTarget - |initial|)
  {
    result := initial;
    if |initial| >= InlineTrigger {
      return;
    }
    var need := InlineTarget - |initial|;
    var i := 0;
    while i < |found| && |result| < InlineTarget
      invariant i <= |found|
      invariant result == initial + Take(Hits(found[..i]), need)
    {
      HitsStep(found, i);
      result := ScanSelector(initial, need, Hits(found[..i]), found[i], AlternativePriceSelectors[i], result);
      i := i + 1;
    }
    HitsGrow(found, i);
    if i < |found| {
      TakeOfPrefix(Hits(found[..i]), Hits(found), need);
    } else {
      assert found[..i] == found;
    }
  }

  /** One selector's turn of the scan: the displayed elements of `row`, in
      order, each appending its price while fewer than five are held. With
      `done` the entries of the earlier selectors, the held prices go from
      the first `need` of `done` to the first `need` of `done` followed by
      this selector's entries. */
  method ScanSelector(initial: seq<PriceData>, need: nat, ghost done: seq<PriceData>, row: seq<InlineElement>,
                      selector: string, held: seq<PriceData>) returns (result: seq<PriceData>)
    requires |initial| + need == InlineTarget
    requires held == initial + Take(done, need) && |held| < InlineTarget
    ensures result == initial + Take(done + RowHits(row, selector), need)
  {
    result := held;
    var j := 0;
    ghost var seen: seq<PriceData> := [];
    assert row[..0] == [];
    assert result + seen == result;
    while j < |row| && |result| < InlineTarget
      invariant j <= |row|
      invariant seen == RowHits(row[..j], selector)
      invariant result == held + seen && |result| <= InlineTarget
    {
      RowHitsStep(row, selector, j);
      var hit := InlineHit(row[j], selector);
      if hit.Some? {
        AppendAssoc(held, seen, [hit.value]);
        result := result + [hit.value];
        seen := seen + [hit.value];
      }
      j := j + 1;
    }
    RowHitsGrow(row, selector, j);
    if j == |row| {
      assert row[..j] == row;
    }
    ScanExit(initial, need, done, seen, RowHits(row, selector));
  }

  /** The held prices at the end of one selector's turn: either its entries
      ran out, or five prices are held and the rest cannot matter. */
  lemma ScanExit(initial: seq<PriceData>, need: nat, done: seq<PriceData>, seen: seq<PriceData>, full: seq<PriceData>)
    requires |initial| + need == InlineTarget
    requires |initial + Take(done, need)| < InlineTarget
    requires PrefixOf(seen, full)
    requires |initial + Take(done, need) + seen| <= InlineTarget
    requires seen == full || |initial + Take(done, need) + seen| == InlineTarget
    ensures initial + Take(done, need) + seen == initial + Take(done + full, need)
  {
    assert Take(done, need) == done;
    AppendAssoc(initial, done, seen);
    if seen == full {
      assert done + full == (done + full)[..|done + full|];
    } else {
      assert PrefixOf(done + seen, done + full) by {
        assert (done + full)[..|done + seen|] == done + seen;
      }
      TakeOfPrefix(done + seen, done + full, need);
      assert (done + seen)[..need] == done + seen;
    }
  }

  lemma TakeAppendEntry(a: seq<PriceData>, x: PriceData, n: nat)
    ensures Take(a + [x], n) == if |a| < n then a + [x] else Take(a, n)
  {
    if |a| >= n {
      assert (a + [x])[..n] == a[..n];
    }
  }

  /** `[p for p in price_data_list if p["price"] >= 50]`. */
  function AtLeastMinimum(entries: seq<PriceData>): (r: seq<PriceData>)
    ensures |r| <= |entries|
    ensures forall k :: 0 <= k < |r| ==> r[k].price >= InlineMinPrice
  {
    if entries == [] then []
    else (if entries[0].price >= InlineMinPrice then [entries[0]] else []) + AtLeastMinimum(entries[1..])
  }

  /** The final filter of the test keeps every price the scan and the
      extractor (whose range starts at 50) collected: every entry of the
      result counts as a valid price. */
  lemma {:induction false} FinalFilterKeepsAll(entries: seq<PriceData>)
    requires forall k :: 0 <= k < |entries| ==> entries[k].price >= InlineMinPrice
    ensures AtLeastMinimum(entries) == entries
  {
    if entries != [] {
      FinalFilterKeepsAll(entries[1..]);
    }
  }

  /** The scan's result holds at most five prices once it ran, and every
      price in it is at least 50 when the extracted ones were. */
  lemma InlineResultShape(initial: seq<PriceData>, found: seq<seq<InlineElement>>)
    requires |found| == |AlternativePriceSelectors|
    requires |initial| < InlineTrigger
    requires forall k :: 0 <= k < |initial| ==> initial[k].price >= InlineMinPrice
    ensures var result := initial + Take(Hits(found), InlineTarget - |initial|);
      |result| <= InlineTarget
      && AtLeastMinimum(result) == result
  {
    var h := Take(Hits(found), InlineTarget - |initial|);
    var result := initial + h;
    assert forall k :: 0 <= k < |h| ==> h[k] == Hits(found)[k];
    FinalFilterKeepsAll(result);
  }
}
