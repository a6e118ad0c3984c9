/** utils/test_helpers.py: the fallback chains (selector classification,
    element finder, price reader, product finder), the bounded retry click,
    the bounded multi-pass popup dismissal and the single-tab wrappers around
    navigation and clicks. Every browser answer is an oracle argument. */
module TestHelpers {
  import opened Wrappers
  import opened Text
  import opened Driver
  import opened BrowserConfig
  import opened Scan
  import opened PopupPasses

  // ---------------------------------------------------------------------------
  // auto_detect_selector_type

  /** Selenium's `By` strategies used by the helpers. */
  datatype By = Id | ClassName | XPath | CssSelector | Name

  datatype Locator = Locator(strategy: By, selector: string)

  /** The prefix that auto-detection strips for each strategy. */
  function StrippedPrefix(strategy: By): string {
    match strategy
    case Id => "#"
    case ClassName => "."
    case Name => "name="
    case XPath => ""
    case CssSelector => ""
  }

  predicate StartsWith(s: string, p: string) {
    IsPrefix(p, s)
  }

  predicate HasBrackets(s: string) {
    '[' in s && ']' in s
  }

  /** auto_detect_selector_type: the rules are tried in the order `#`, `.`,
      `//`, brackets, `name=`, and the first that applies decides. The
      stripped prefix put back in front of the answer rebuilds the input, so
      XPath and CSS answers are the input itself. */
  function AutoDetectSelectorType(s: string): (r: Locator)
    ensures StrippedPrefix(r.strategy) + r.selector == s
    ensures r.strategy == Id <==> StartsWith(s, "#")
    ensures r.strategy == ClassName <==> !StartsWith(s, "#") && StartsWith(s, ".")
    ensures r.strategy == XPath <==> !StartsWith(s, "#") && !StartsWith(s, ".") && StartsWith(s, "//")
    ensures r.strategy == Name <==>
      !StartsWith(s, "#") && !StartsWith(s, ".") && !StartsWith(s, "//") && !HasBrackets(s) && StartsWith(s, "name=")
  {
    if StartsWith(s, "#") then
      assert s == s[..1] + s[1..];
      Locator(Id, s[1..])
    else if StartsWith(s, ".") then
      assert s == s[..1] + s[1..];
      Locator(ClassName, s[1..])
    else if StartsWith(s, "//") then Locator(XPath, s)
    else if HasBrackets(s) then Locator(CssSelector, s)
    else if StartsWith(s, "name=") then
      assert s == s[..5] + s[5..];
      Locator(Name, s[5..])
    else Locator(CssSelector, s)
  }

  // ---------------------------------------------------------------------------
  // advanced_element_finder

  /** The expected condition the finder waits for. */
  datatype Condition = Presence | Visible | Clickable

  /** The `condition` name to expected-condition mapping; an unknown name
      falls back to presence. */
  function ConditionFor(name: string): (c: Condition)
    ensures c == Visible <==> name == "visible"
    ensures c == Clickable <==> name == "clickable"
  {
    if name == "visible" then Visible
    else if name == "clickable" then Clickable
    else Presence
  }

  /** One selector entry: an explicit `(By, selector)` tuple or a string
      whose strategy is auto-detected. */
  datatype SelectorInfo = Explicit(locator: Locator) | Auto(text: string)

  function Resolve(info: SelectorInfo): Locator {
    match info
    case Explicit(l) => l
    case Auto(s) => AutoDetectSelectorType(s)
  }

  /** The outcome of `wait.until(condition((by, selector)))`: a timeout, or
      the element located, with what `is_displayed()` answers for it. */
  datatype Lookup = TimedOut | Located(displayed: bool)

  predicate Hit(l: Lookup) {
    l.Located? && l.displayed
  }

  /** advanced_element_finder: the answer is the index of the first selector,
      in list order, whose wait succeeds with a displayed element; `None`
      only when every selector fails. */
  method AdvancedElementFinder(selectors: seq<SelectorInfo>, condition: string,
                               wait: (Condition, Locator) -> Lookup)
    returns (found: Option<nat>)
    ensures found.Some? ==> found.value < |selectors|
    ensures found.Some? ==> Hit(wait(ConditionFor(condition), Resolve(selectors[found.value])))
    ensures found.Some? ==>
      forall k :: 0 <= k < found.value ==> !Hit(wait(ConditionFor(condition), Resolve(selectors[k])))
    ensures found.None? ==>
      forall k :: 0 <= k < |selectors| ==> !Hit(wait(ConditionFor(condition), Resolve(selectors[k])))
  {
    var c := ConditionFor(condition);
    for i := 0 to |selectors|
      invariant forall k :: 0 <= k < i ==> !Hit(wait(c, Resolve(selectors[k])))
    {
      var lookup := wait(c, Resolve(selectors[i]));
      if lookup.Located? && lookup.displayed {
        return Some(i);
      }
    }
    return None;
  }

  // ---------------------------------------------------------------------------
  // robust_element_click

  /** What one click attempt does: the native click works; it is intercepted
      and the JavaScript click then works or raises; or it fails otherwise. */
  datatype ClickAttempt = Clicked | Intercepted(scriptClickOk: bool) | ClickFailed

  predicate AttemptSucceeds(a: ClickAttempt) {
    a.Clicked? || (a.Intercepted? && a.scriptClickOk)
  }

  /** Some attempt below `n` succeeds; `attempt(k)` is the browser's answer
      to attempt `k`. */
  predicate SucceedsWithin(attempt: nat -> ClickAttempt, n: nat) {
    exists k :: 0 <= k < n && AttemptSucceeds(attempt(k))
  }

  const DefaultClickAttempts := 3

  /** robust_element_click: at most `maxAttempts` attempts; true as soon as
      one succeeds (`made` is then the number of attempts made, the last one
      the first success), false only after every attempt failed. */
  method RobustElementClick(attempt: nat -> ClickAttempt, maxAttempts: nat) returns (ok: bool, made: nat)
    ensures made <= maxAttempts
    ensures ok <==> SucceedsWithin(attempt, maxAttempts)
    ensures ok ==> made >= 1 && AttemptSucceeds(attempt(made - 1))
    ensures forall k :: 0 <= k < made - 1 ==> !AttemptSucceeds(attempt(k))
    ensures !ok ==> made == maxAttempts
  {
    made := 0;
    while made < maxAttempts
      invariant made <= maxAttempts
      invariant forall k :: 0 <= k < made ==> !AttemptSucceeds(attempt(k))
    {
      var a := attempt(made);
      made := made + 1;
      match a
      case Clicked =>
        return true, made;
      case Intercepted(scriptOk) =>
        if scriptOk {
          return true, made;
        }
      case ClickFailed =>
    }
    ok := false;
  }

  // ---------------------------------------------------------------------------
  // extract_price_from_element

  const PriceSelectors: seq<string> := [
    ".a-price-whole",
    ".a-price .a-offscreen",
    ".a-price-range .a-offscreen",
    ".a-price-symbol + .a-price-whole",
    "[data-a-price] .a-offscreen",
    ".a-price-display .a-offscreen",
    ".a-price .a-price-whole",
    ".a-price-range .a-price-whole",
    "*[class*='price'] *[class*='whole']",
    "*[class*='price'] *[class*='amount']",
    "*[data-testid*='price']",
    "*[aria-label*='price']"
  ]

  const MinPrice := 50
  const MaxHelperPrice := 10000000

  /** A price element: its `.text`, and its `textContent` and `innerHTML`
      attributes (`None` when the attribute is absent). */
  datatype PriceElement = PriceElement(text: string, textContent: Option<string>, innerHTML: Option<string>)

  /** The text a price is read from: the stripped `.text` when it is not
      blank, else the stripped `textContent` when that is non-empty, else
      `innerHTML` with its tags removed, stripped; empty when none applies. */
  function PriceText(e: PriceElement): (t: string)
    ensures Strip(e.text) != [] ==> t == Strip(e.text)
    ensures Strip(e.text) == [] && e.textContent.Some? && e.textContent.value != [] ==>
      t == Strip(e.textContent.value)
    ensures Strip(e.text) == [] && (e.textContent.None? || e.textContent.value == []) ==>
      t == if e.innerHTML.Some? && e.innerHTML.value != [] then Strip(RemoveTags(e.innerHTML.value)) else []
  {
    if Strip(e.text) != [] then Strip(e.text)
    else if e.textContent.Some? && e.textContent.value != [] then Strip(e.textContent.value)
    else if e.innerHTML.Some? && e.innerHTML.value != [] then Strip(RemoveTags(e.innerHTML.value))
    else []
  }

  /** The price an element yields: the number its price text reads as,
      kept when in [50, 10^7]; an empty price text yields none. */
  function ElementPrice(e: PriceElement): (p: Option<nat>)
    ensures p == ParsePrice(PriceText(e), MinPrice, MaxHelperPrice)
    ensures p.Some? ==> MinPrice <= p.value <= MaxHelperPrice && PriceText(e) != []
  {
    var t := PriceText(e);
    if t == [] then None else ParsePrice(t, MinPrice, MaxHelperPrice)
  }

  datatype PriceData = PriceData(price: nat, originalText: string, selectorUsed: string)

  predicate Priced(e: PriceElement) {
    ElementPrice(e).Some?
  }

  /** The answer read from a price element found by the `i`-th selector. */
  function PriceDataOf(e: PriceElement, i: nat): PriceData
    requires Priced(e) && i < |PriceSelectors|
  {
    PriceData(ElementPrice(e).value, PriceText(e), PriceSelectors[i])
  }

  /** extract_price_from_element: `found[i]` lists the elements the i-th
      price selector finds (empty when the lookup raised). The answer comes
      from the first element, in selector order then element order, whose
      text yields a price in range; an out-of-range or unreadable element
      does not stop the search. */
  method ExtractPriceFromElement(found: seq<seq<PriceElement>>) returns (r: Option<PriceData>)
    requires |found| == |PriceSelectors|
    ensures r.None? <==> FirstHit(found, Priced).None?
    ensures r.Some? ==>
      var (i, j) := FirstHit(found, Priced).value;
      r.value == PriceDataOf(found[i][j], i)
    ensures r.Some? ==> MinPrice <= r.value.price <= MaxHelperPrice
  {
    for i := 0 to |found|
      invariant FirstFrom(found, Priced, 0) == FirstFrom(found, Priced, i)
    {
      for j := 0 to |found[i]|
        invariant FirstInRow(found[i], Priced, 0) == FirstInRow(found[i], Priced, j)
      {
        var e := found[i][j];
        var p := ElementPrice(e);
        if p.Some? {
          return Some(PriceData(p.value, PriceText(e), PriceSelectors[i]));
        }
      }
    }
    return None;
  }

  /** The price read is the one of an element that yields a price, and no
      element scanned before it yields one; no price is read only when no
      element yields one. */
  lemma ExtractedPriceIsFirst(found: seq<seq<PriceElement>>)
    ensures FirstHit(found, Priced).Some? ==>
      var (i, j) := FirstHit(found, Priced).value;
      i < |found| && j < |found[i]| && ElementPrice(found[i][j]).Some?
      && NoneBefore(found, Priced, i, j)
    ensures FirstHit(found, Priced).None? <==>
      forall i, j :: 0 <= i < |found| && 0 <= j < |found[i]| ==> ElementPrice(found[i][j]).None?
  {
    FirstHitIsFirst(found, Priced);
  }

  // ---------------------------------------------------------------------------
  // smart_product_finder

  const MinProducts := 3

  /** A selector's wait found at least three products. */
  predicate BigEnough<E>(o: Option<seq<E>>) {
    o.Some? && |o.value| >= MinProducts
  }

  /** Selector `i` is the first one with at least three products. */
  predicate WinsAt<E>(found: seq<Option<seq<E>>>, i: nat) {
    i < |found| && BigEnough(found[i]) && forall k :: 0 <= k < i ==> !BigEnough(found[k])
  }

  lemma WinsAtUnique<E>(found: seq<Option<seq<E>>>, i: nat, j: nat)
    requires WinsAt(found, i) && WinsAt(found, j)
    ensures i == j
  {
  }

  /** smart_product_finder: `found[i]` is what waiting on the i-th product
      selector gives (`None` on timeout) and `fallback` what the scraping
      fallback returns. The first selector with at least three products wins
      and is cut to `maxProducts`; the fallback is used when no selector
      reaches three, or when the cut leaves nothing. */
  method SmartProductFinder<E>(found: seq<Option<seq<E>>>, maxProducts: nat, fallback: seq<E>)
    returns (products: seq<E>)
    ensures forall i: nat :: WinsAt(found, i) ==>
      products == if Take(found[i].value, maxProducts) != [] then Take(found[i].value, maxProducts) else fallback
    ensures (forall i :: 0 <= i < |found| ==> !BigEnough(found[i])) ==> products == fallback
    ensures products == fallback || |products| <= maxProducts
  {
    products := fallback;
    var i := 0;
    while i < |found|
      invariant i <= |found|
      invariant forall k :: 0 <= k < i ==> !BigEnough(found[k])
    {
      if found[i].Some? && |found[i].value| >= MinProducts {
        assert WinsAt(found, i);
        forall j: nat | WinsAt(found, j)
          ensures j == i
        {
          WinsAtUnique(found, i, j);
        }
        var cut := Take(found[i].value, maxProducts);
        if cut != [] {
          products := cut;
        }
        return;
      }
      i := i + 1;
    }
  }

  // ---------------------------------------------------------------------------
  // intelligent_popup_dismissal

  const DefaultPopupPasses := 5

  /** A popup candidate: whether it is displayed and enabled, whether
      scrolling it into view works, and the browser's answer to each attempt
      of the robust click. */
  datatype PopupElement = PopupElement(displayed: bool, enabled: bool, scrolls: bool, clicks: nat -> ClickAttempt)

  /** The element is dismissed when it is displayed and enabled, scrolls into
      view, and the robust click (three attempts) succeeds. */
  predicate Dismisses(e: PopupElement) {
    e.displayed && e.enabled && e.scrolls && SucceedsWithin(e.clicks, DefaultClickAttempts)
  }

  /** One pass of intelligent_popup_dismissal over `page` (for each popup
      selector in priority order, the elements found): it dismisses the
      first element that `Dismisses`, and nothing else. */
  method DismissalPass(page: seq<seq<PopupElement>>) returns (hit: Option<(nat, nat)>)
    ensures hit == FirstHit(page, Dismisses)
  {
    for i := 0 to |page|
      invariant FirstFrom(page, Dismisses, 0) == FirstFrom(page, Dismisses, i)
    {
      for j := 0 to |page[i]|
        invariant FirstInRow(page[i], Dismisses, 0) == FirstInRow(page[i], Dismisses, j)
      {
        var e := page[i][j];
        if e.displayed && e.enabled && e.scrolls {
          var clicked, _ := RobustElementClick(e.clicks, DefaultClickAttempts);
          if clicked {
            return Some((i, j));
          }
        }
      }
    }
    return None;
  }

  /** intelligent_popup_dismissal: passes repeat while the previous one
      dismissed something, at most `maxAttempts` of them; `pages[n]` is what
      pass `n` sees. The answer is the number dismissed; `dismissed` lists the
      (selector, element) dismissed by each pass, as the source logs them. */
  method IntelligentPopupDismissal(pages: seq<seq<seq<PopupElement>>>, maxAttempts: nat)
    returns (count: nat, dismissed: seq<(nat, nat)>)
    ensures dismissed == Dismissals(pages, Dismisses, maxAttempts)
    ensures count == |dismissed|
  {
    count, dismissed := 0, [];
    var attempt := 0;
    while attempt < maxAttempts
      invariant attempt <= maxAttempts
      invariant count == |dismissed| == attempt
      invariant dismissed + DismissalsFrom(pages, Dismisses, attempt, maxAttempts)
             == Dismissals(pages, Dismisses, maxAttempts)
    {
      var hit := DismissalPass(PageAt(pages, attempt));
      if hit.None? {
        break;
      }
      DismissalsFromStep(pages, Dismisses, attempt, maxAttempts);
      ghost var later := DismissalsFrom(pages, Dismisses, attempt + 1, maxAttempts);
      assert (dismissed + [hit.value]) + later == dismissed + ([hit.value] + later);
      count := count + 1;
      dismissed := dismissed + [hit.value];
      attempt := attempt + 1;
    }
    DismissalsFromStep(pages, Dismisses, attempt, maxAttempts);
  }

  /** The dismissal count is at most the pass budget, and 0 when the first
      pass finds no element to dismiss. */
  lemma PopupCountBounded(pages: seq<seq<seq<PopupElement>>>, maxAttempts: nat)
    ensures |Dismissals(pages, Dismisses, maxAttempts)| <= maxAttempts
    ensures NoneAccepted(PageAt(pages, 0), Dismisses) ==> Dismissals(pages, Dismisses, maxAttempts) == []
  {
    DismissalsShape(pages, Dismisses, maxAttempts);
  }

  // ---------------------------------------------------------------------------
  // navigate_single_tab, click_element_single_tab

  /** Whatever windows the action opens, a successful enforcement after it
      leaves only the window that was first before it: the session's main
      window survives both enforcements and nothing else does. */
  lemma EnforcedActionKeepsMainWindow(hs: seq<Handle>, before: bool, spawned: seq<Handle>)
    requires hs != []
    ensures AfterEnforce(AfterEnforce(hs, before) + spawned, true) == [hs[0]]
  {
    var mid := AfterEnforce(hs, before);
    assert mid[0] == hs[0];
    assert (mid + spawned)[0] == hs[0];
  }

  /** The windows one enforcement leaves open were open before it. */
  lemma AfterEnforceShrinks(hs: seq<Handle>, scriptOk: bool)
    ensures forall h :: h in AfterEnforce(hs, scriptOk) ==> h in hs
  {
  }

  /** navigate_single_tab: enforce the single window, load `url`, enforce it
      again. `before` and `after` say whether each enforcement's script
      injection works, `loads` whether `driver.get` works, and `spawned` the
      windows the page opens. The answer is false exactly when the load
      raised, in which case the second enforcement is skipped. */
  method NavigateSingleTab(d: Browser, url: string, before: bool, loads: bool, spawned: seq<Handle>, after: bool)
    returns (ok: bool)
    requires d.Valid()
    requires Distinct(spawned) && forall s :: s in spawned ==> s !in d.handles
    modifies d
    ensures d.Valid()
    ensures ok == loads
    ensures d.log == old(d.log) + EnforceTrace(old(d.handles), before)
      + if loads then [Loaded(url)] + EnforceTrace(AfterEnforce(old(d.handles), before) + spawned, after) else []
    ensures d.handles == if loads then AfterEnforce(AfterEnforce(old(d.handles), before) + spawned, after)
                         else AfterEnforce(old(d.handles), before)
  {
    ghost var h0, l0 := d.handles, d.log;
    var first := EnforceSingleTabMode(d, before);
    ghost var l1 := d.log;
    AfterEnforceShrinks(h0, before);
    ok := d.Act(Some(url), loads, spawned);
    if !ok {
      assert d.log == l1 + [];
      return;
    }
    ghost var h2 := d.handles;
    var second := EnforceSingleTabMode(d, after);
    AppendAssoc(l1, [Loaded(url)], EnforceTrace(h2, after));
  }

  /** click_element_single_tab: enforce the single window, click by script,
      enforce it again; false exactly when the script click raised. */
  method ClickElementSingleTab(d: Browser, before: bool, clicks: bool, spawned: seq<Handle>, after: bool)
    returns (ok: bool)
    requires d.Valid()
    requires Distinct(spawned) && forall s :: s in spawned ==> s !in d.handles
    modifies d
    ensures d.Valid()
    ensures ok == clicks
    ensures d.log == old(d.log) + EnforceTrace(old(d.handles), before)
      + if clicks then [ScriptClicked] + EnforceTrace(AfterEnforce(old(d.handles), before) + spawned, after) else []
    ensures d.handles == if clicks then AfterEnforce(AfterEnforce(old(d.handles), before) + spawned, after)
                         else AfterEnforce(old(d.handles), before)
  {
    ghost var h0, l0 := d.handles, d.log;
    var first := EnforceSingleTabMode(d, before);
    ghost var l1 := d.log;
    AfterEnforceShrinks(h0, before);
    ok := d.Act(None, clicks, spawned);
    if !ok {
      assert d.log == l1 + [];
      return;
    }
    ghost var h2 := d.handles;
    var second := EnforceSingleTabMode(d, after);
    AppendAssoc(l1, [ScriptClicked], EnforceTrace(h2, after));
  }
}
