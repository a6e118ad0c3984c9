/** Scanning a list of per-selector element lists for the first element a
    rule accepts, in selector order and then element order: the search shape
    of the helpers that try selectors one after another and stop at the first
    element that works. */
module Scan {
  import opened Wrappers

  /** The first index `>= j` of `row` that `ok` accepts. */
  function FirstInRow<E>(row: seq<E>, ok: E -> bool, j: nat): (r: Option<nat>)
    ensures r.Some? ==> j <= r.value < |row| && ok(row[r.value])
    decreases |row| - j
  {
    if j >= |row| then None
    else if ok(row[j]) then Some(j)
    else FirstInRow(row, ok, j + 1)
  }

  /** The first position `(selector, element)` at or after selector `i` whose
      element `ok` accepts. */
  function FirstFrom<E>(page: seq<seq<E>>, ok: E -> bool, i: nat): (r: Option<(nat, nat)>)
    ensures r.Some? ==> i <= r.value.0 < |page| && r.value.1 < |page[r.value.0]|
    ensures r.Some? ==> ok(page[r.value.0][r.value.1])
    decreases |page| - i
  {
    if i >= |page| then None
    else match FirstInRow(page[i], ok, 0)
      case Some(j) => Some((i, j))
      case None => FirstFrom(page, ok, i + 1)
  }

  /** The first accepted element of `page`, scanning selector by selector in
      order and, within a selector, element by element. */
  function FirstHit<E>(page: seq<seq<E>>, ok: E -> bool): Option<(nat, nat)>
  {
    FirstFrom(page, ok, 0)
  }

  /** Position `(i, j)` comes before `(i', j')` in selector order, then
      element order. */
  predicate Before(i': nat, j': nat, i: nat, j: nat) {
    i' < i || (i' == i && j' < j)
  }

  /** No element of `page` before position `(i, j)` is accepted by `ok`. */
  predicate NoneBefore<E>(page: seq<seq<E>>, ok: E -> bool, i: nat, j: nat) {
    forall i', j' :: 0 <= i' < |page| && 0 <= j' < |page[i']| && Before(i', j', i, j) ==> !ok(page[i'][j'])
  }

  /** No element of `page` is accepted by `ok`. */
  predicate NoneAccepted<E>(page: seq<seq<E>>, ok: E -> bool) {
    forall i', j' :: 0 <= i' < |page| && 0 <= j' < |page[i']| ==> !ok(page[i'][j'])
  }

  lemma {:induction false} FirstInRowIsFirst<E>(row: seq<E>, ok: E -> bool, j: nat)
    ensures FirstInRow(row, ok, j).Some? ==>
      forall k :: j <= k < FirstInRow(row, ok, j).value ==> !ok(row[k])
    ensures FirstInRow(row, ok, j).None? ==> forall k :: j <= k < |row| ==> !ok(row[k])
    decreases |row| - j
  {
    if j < |row| && !ok(row[j]) {
      FirstInRowIsFirst(row, ok, j + 1);
    }
  }

  lemma {:induction false} FirstFromIsFirst<E>(page: seq<seq<E>>, ok: E -> bool, i: nat)
    ensures FirstFrom(page, ok, i).Some? ==>
      var (si, ei) := FirstFrom(page, ok, i).value;
      forall i', j' :: i <= i' < |page| && 0 <= j' < |page[i']| && Before(i', j', si, ei) ==> !ok(page[i'][j'])
    ensures FirstFrom(page, ok, i).None? ==>
      forall i', j' :: i <= i' < |page| && 0 <= j' < |page[i']| ==> !ok(page[i'][j'])
    decreases |page| - i
  {
    if i < |page| {
      FirstInRowIsFirst(page[i], ok, 0);
      if FirstInRow(page[i], ok, 0).None? {
        FirstFromIsFirst(page, ok, i + 1);
      }
    }
  }

  /** The hit is accepted and nothing before it is; there is no hit exactly
      when no element is accepted. */
  lemma FirstHitIsFirst<E>(page: seq<seq<E>>, ok: E -> bool)
    ensures FirstHit(page, ok).Some? ==>
      var (i, j) := FirstHit(page, ok).value;
      i < |page| && j < |page[i]| && ok(page[i][j]) && NoneBefore(page, ok, i, j)
    ensures FirstHit(page, ok).None? <==> NoneAccepted(page, ok)
  {
    FirstFromIsFirst(page, ok, 0);
  }
}
