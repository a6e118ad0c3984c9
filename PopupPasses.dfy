/** The pass structure shared by both popup-dismissal loops
    (utils/test_helpers.py and tests/test_amazon_complete_backup.py): a pass
    walks the popup selectors in priority order and, within a selector, the
    elements found in page order, and dismisses at most one element, the
    first one whose dismissal succeeds; passes repeat until one dismisses
    nothing or the pass budget is spent.

    A page is what one pass sees: for each selector, the elements found. The
    oracle lists the pages of successive passes; a pass beyond the list sees
    no popup. Whether an element is dismissed is the caller's rule `ok`. */
module PopupPasses {
  import opened Wrappers
  import opened Scan

  /** The page seen by pass `n`. */
  function PageAt<E>(pages: seq<seq<seq<E>>>, n: nat): seq<seq<E>>
  {
    if n < |pages| then pages[n] else []
  }

  /** The positions dismissed by passes `n`, `n + 1`, ... below `maxPasses`,
      stopping after the first pass that dismisses nothing. */
  function DismissalsFrom<E>(pages: seq<seq<seq<E>>>, ok: E -> bool, n: nat, maxPasses: nat): (log: seq<(nat, nat)>)
    decreases maxPasses - n
  {
    if n >= maxPasses then []
    else match FirstHit(PageAt(pages, n), ok)
      case None => []
      case Some(p) => [p] + DismissalsFrom(pages, ok, n + 1, maxPasses)
  }

  /** A run from pass `n` that dismisses `p` goes on with pass `n + 1`; one
      whose pass `n` dismisses nothing, or that is out of budget, stops. */
  lemma DismissalsFromStep<E>(pages: seq<seq<seq<E>>>, ok: E -> bool, n: nat, maxPasses: nat)
    ensures n >= maxPasses ==> DismissalsFrom(pages, ok, n, maxPasses) == []
    ensures n < maxPasses && FirstHit(PageAt(pages, n), ok).None? ==> DismissalsFrom(pages, ok, n, maxPasses) == []
    ensures n < maxPasses && FirstHit(PageAt(pages, n), ok).Some? ==>
      DismissalsFrom(pages, ok, n, maxPasses)
        == [FirstHit(PageAt(pages, n), ok).value] + DismissalsFrom(pages, ok, n + 1, maxPasses)
  {
  }

  /** Everything a dismissal run dismisses, one position per pass. */
  function Dismissals<E>(pages: seq<seq<seq<E>>>, ok: E -> bool, maxPasses: nat): seq<(nat, nat)>
  {
    DismissalsFrom(pages, ok, 0, maxPasses)
  }

  lemma {:induction false} DismissalsFromShape<E>(pages: seq<seq<seq<E>>>, ok: E -> bool, n: nat, maxPasses: nat)
    ensures n <= maxPasses ==> |DismissalsFrom(pages, ok, n, maxPasses)| <= maxPasses - n
    ensures n < maxPasses ==> n + |DismissalsFrom(pages, ok, n, maxPasses)| <= |pages|
                              || |DismissalsFrom(pages, ok, n, maxPasses)| == 0
    ensures forall k :: 0 <= k < |DismissalsFrom(pages, ok, n, maxPasses)| ==>
      FirstHit(PageAt(pages, n + k), ok) == Some(DismissalsFrom(pages, ok, n, maxPasses)[k])
    ensures n + |DismissalsFrom(pages, ok, n, maxPasses)| < maxPasses ==>
      FirstHit(PageAt(pages, n + |DismissalsFrom(pages, ok, n, maxPasses)|), ok).None?
    decreases maxPasses - n
  {
    if n < maxPasses && FirstHit(PageAt(pages, n), ok).Some? {
      DismissalsFromShape(pages, ok, n + 1, maxPasses);
      var rest := DismissalsFrom(pages, ok, n + 1, maxPasses);
      var log := DismissalsFrom(pages, ok, n, maxPasses);
      assert log == [FirstHit(PageAt(pages, n), ok).value] + rest;
      forall k | 0 <= k < |log|
        ensures FirstHit(PageAt(pages, n + k), ok) == Some(log[k])
      {
        if k > 0 {
          assert log[k] == rest[k - 1];
          assert n + k == (n + 1) + (k - 1);
        }
      }
    }
  }

  /** The dismissal count of a run is at most the pass budget; it is 0 when
      the first pass finds nothing; pass `k` below the count dismissed
      exactly the first accepted element of its page; and when the budget is
      not spent, the pass right after the last dismissal found nothing. */
  lemma DismissalsShape<E>(pages: seq<seq<seq<E>>>, ok: E -> bool, maxPasses: nat)
    ensures |Dismissals(pages, ok, maxPasses)| <= maxPasses
    ensures NoneAccepted(PageAt(pages, 0), ok) ==> Dismissals(pages, ok, maxPasses) == []
    ensures forall k :: 0 <= k < |Dismissals(pages, ok, maxPasses)| ==>
      FirstHit(PageAt(pages, k), ok) == Some(Dismissals(pages, ok, maxPasses)[k])
    ensures |Dismissals(pages, ok, maxPasses)| < maxPasses ==>
      NoneAccepted(PageAt(pages, |Dismissals(pages, ok, maxPasses)|), ok)
  {
    DismissalsFromShape(pages, ok, 0, maxPasses);
    FirstHitIsFirst(PageAt(pages, 0), ok);
    FirstHitIsFirst(PageAt(pages, |Dismissals(pages, ok, maxPasses)|), ok);
  }
}
