/** The string operations of Python that the helpers rely on: `str.strip`,
    `str.lower`, `str.split`, the `in` substring test, `str.replace(',', '')`,
    the first match of the digit-run pattern `[\d,]+`, `int()` on that run,
    and `re.sub(r'<[^>]+>', '', s)`. Whitespace, digits and case are the
    ASCII ones. */
module Text {
  import opened Wrappers

  /** `c.isspace()` on ASCII: \t, \n, \v, \f, \r, the separators U+001C to
      U+001F, and space. */
  predicate IsSpace(c: char) {
    (9 <= c as int <= 13) || (28 <= c as int <= 32)
  }

  predicate IsDigit(c: char) {
    '0' <= c <= '9'
  }

  predicate AllDigits(s: string) {
    forall k :: 0 <= k < |s| ==> IsDigit(s[k])
  }

  predicate AllSpace(s: string) {
    forall k :: 0 <= k < |s| ==> IsSpace(s[k])
  }

  // ---------------------------------------------------------------------------
  // Slicing

  /** `s[:n]`: the first `n` elements, or all of `s` when it is shorter. */
  function Take<T>(s: seq<T>, n: nat): (r: seq<T>)
    ensures |r| == if n <= |s| then n else |s|
    ensures r == s[..|r|]
  {
    if n <= |s| then s[..n] else s
  }

  lemma AppendAssoc<T>(a: seq<T>, b: seq<T>, c: seq<T>)
    ensures (a + b) + c == a + (b + c)
  {
  }

  // ---------------------------------------------------------------------------
  // str.strip()

  /** The number of whitespace characters `s` starts with. */
  function LeadingSpace(s: string): (i: nat)
    ensures i <= |s|
    ensures forall k :: 0 <= k < i ==> IsSpace(s[k])
    ensures i < |s| ==> !IsSpace(s[i])
  {
    if s == [] || !IsSpace(s[0]) then 0 else 1 + LeadingSpace(s[1..])
  }

  /** Where the whitespace `s` ends with begins. */
  function TrailingStart(s: string): (j: nat)
    ensures j <= |s|
    ensures forall k :: j <= k < |s| ==> IsSpace(s[k])
    ensures j > 0 ==> !IsSpace(s[j - 1])
  {
    if s == [] || !IsSpace(s[|s| - 1]) then |s| else TrailingStart(s[..|s| - 1])
  }

  /** `s.strip()`: the result has no surrounding whitespace, and it is empty
      exactly when `s` is all whitespace (the truth test `if s.strip():`);
      StripCutsWhitespace says which part of `s` it is. */
  function Strip(s: string): (r: string)
    ensures r == [] || (!IsSpace(r[0]) && !IsSpace(r[|r| - 1]))
    ensures |r| <= |s|
    ensures r == [] <==> AllSpace(s)
  {
    var i := LeadingSpace(s);
    if i == |s| then []
    else
      var j := TrailingStart(s);
      assert i < j;
      assert !AllSpace(s) by { assert !IsSpace(s[i]); }
      s[i..j]
  }

  /** `s.strip()` is the part of `s` left once the whitespace on both sides
      is cut off. */
  lemma StripCutsWhitespace(s: string)
    ensures LeadingSpace(s) + |Strip(s)| <= |s|
    ensures Strip(s) == s[LeadingSpace(s)..LeadingSpace(s) + |Strip(s)|]
    ensures AllSpace(s[..LeadingSpace(s)]) && AllSpace(s[LeadingSpace(s) + |Strip(s)|..])
  {
    var i := LeadingSpace(s);
    SpacePrefix(s, i);
    if i < |s| {
      StripMiddle(s, i, TrailingStart(s));
    }
  }

  lemma StripMiddle(s: string, i: nat, j: nat)
    requires i == LeadingSpace(s) < |s| && j == TrailingStart(s)
    ensures i < j && Strip(s) == s[i..j] && AllSpace(s[j..])
  {
    SpaceSuffix(s, j);
  }

  lemma SpacePrefix(s: string, i: nat)
    requires i <= |s| && forall k :: 0 <= k < i ==> IsSpace(s[k])
    ensures AllSpace(s[..i])
  {
    assert forall k :: 0 <= k < i ==> s[..i][k] == s[k];
  }

  lemma SpaceSuffix(s: string, j: nat)
    requires j <= |s| && forall k :: j <= k < |s| ==> IsSpace(s[k])
    ensures AllSpace(s[j..])
  {
    assert forall k :: 0 <= k < |s| - j ==> s[j..][k] == s[j + k];
  }

  // ---------------------------------------------------------------------------
  // str.lower()

  function LowerChar(c: char): char {
    if 'A' <= c <= 'Z' then (c as int + 32) as char else c
  }

  /** `s.lower()` on ASCII letters: same length, each character lowered. */
  function Lower(s: string): (r: string)
    ensures |r| == |s|
    ensures forall k :: 0 <= k < |s| ==> r[k] == LowerChar(s[k])
  {
    if s == [] then [] else [LowerChar(s[0])] + Lower(s[1..])
  }

  // ---------------------------------------------------------------------------
  // `sub in s`

  predicate IsPrefix(p: string, s: string) {
    |p| <= |s| && s[..|p|] == p
  }

  /** Python's `sub in s` for strings: `sub` occurs at some position of `s`. */
  predicate Contains(s: string, sub: string)
    decreases |s|
  {
    IsPrefix(sub, s) || (s != [] && Contains(s[1..], sub))
  }

  lemma {:induction false} ContainsAt(s: string, sub: string, i: nat)
    requires i + |sub| <= |s| && s[i..i + |sub|] == sub
    ensures Contains(s, sub)
    decreases i
  {
    if i > 0 {
      assert s[1..][i - 1..i - 1 + |sub|] == s[i..i + |sub|];
      ContainsAt(s[1..], sub, i - 1);
    } else {
      assert s[..|sub|] == s[0..|sub|];
    }
  }

  // ---------------------------------------------------------------------------
  // str.split() with no argument

  /** The length of the run of non-whitespace `s` starts with. */
  function WordLength(s: string): (n: nat)
    ensures n <= |s|
    ensures forall k :: 0 <= k < n ==> !IsSpace(s[k])
    ensures n < |s| ==> IsSpace(s[n])
  {
    if s == [] || IsSpace(s[0]) then 0 else 1 + WordLength(s[1..])
  }

  predicate NoSpace(w: string) {
    forall k :: 0 <= k < |w| ==> !IsSpace(w[k])
  }

  /** `s.split()`: WordsAreRuns says every word is a non-empty run without
      whitespace, WordsSplit that they are the maximal such runs, in order,
      and NoWords when there are none. */
  function Words(s: string): seq<string>
    decreases |s|
  {
    var i := LeadingSpace(s);
    if i == |s| then []
    else [s[i..i + WordLength(s[i..])]] + Words(s[i + WordLength(s[i..])..])
  }

  /** A text has no words exactly when it is all whitespace, that is when
      it strips to the empty string. */
  lemma NoWords(s: string)
    ensures Words(s) == [] <==> AllSpace(s)
    ensures Words(s) == [] <==> Strip(s) == []
  {
    var i := LeadingSpace(s);
    if i < |s| {
      assert !IsSpace(s[i]);
    }
  }

  /** Every word of `s.split()` is non-empty and holds no whitespace. */
  lemma {:induction false} WordsAreRuns(s: string)
    ensures forall j :: 0 <= j < |Words(s)| ==> Words(s)[j] != [] && NoSpace(Words(s)[j])
    decreases |s|
  {
    var i := LeadingSpace(s);
    if i < |s| {
      var n := WordLength(s[i..]);
      var w := s[i..i + n];
      assert n > 0 by { assert s[i..][0] == s[i]; }
      assert NoSpace(w) by {
        forall k | 0 <= k < n ensures !IsSpace(w[k]) {
          assert w[k] == s[i..][k];
        }
      }
      WordsUnfold(s, i, n);
      WordsAreRuns(s[i + n..]);
      WordsConsRuns(w, Words(s[i + n..]));
    }
  }

  lemma WordsConsRuns(w: string, rest: seq<string>)
    requires w != [] && NoSpace(w)
    requires forall j :: 0 <= j < |rest| ==> rest[j] != [] && NoSpace(rest[j])
    ensures forall j :: 0 <= j < |[w] + rest| ==> ([w] + rest)[j] != [] && NoSpace(([w] + rest)[j])
  {
    var ws := [w] + rest;
    forall j | 0 < j < |ws| ensures ws[j] == rest[j - 1] {
    }
  }

  /** `gaps[0] + ws[0] + gaps[1] + ... + ws[n - 1] + gaps[n]`. */
  function Interleave(gaps: seq<string>, ws: seq<string>): string
    requires |gaps| == |ws| + 1
    decreases |ws|
  {
    if ws == [] then gaps[0] else gaps[0] + ws[0] + Interleave(gaps[1..], ws[1..])
  }

  /** `gaps` are whitespace runs that can separate the words of a text: all
      whitespace, and non-empty between two words. */
  predicate Separators(gaps: seq<string>) {
    (forall i :: 0 <= i < |gaps| ==> AllSpace(gaps[i]))
    && (forall i :: 0 < i < |gaps| - 1 ==> gaps[i] != [])
  }

  /** The whitespace runs of `s` around and between its words. */
  function Gaps(s: string): seq<string>
    decreases |s|
  {
    var i := LeadingSpace(s);
    if i == |s| then [s]
    else [s[..i]] + Gaps(s[i + WordLength(s[i..])..])
  }

  /** The words of `s.split()` are its maximal runs of non-whitespace, in
      order: `s` is the words with whitespace runs around and between them,
      the runs between two words being non-empty. */
  lemma {:induction false} WordsSplit(s: string)
    ensures |Gaps(s)| == |Words(s)| + 1
    ensures Separators(Gaps(s))
    ensures s == Interleave(Gaps(s), Words(s))
    decreases |s|
  {
    var i := LeadingSpace(s);
    if i == |s| {
      SplitAllSpace(s);
    } else {
      var n := WordLength(s[i..]);
      WordsSplit(s[i + n..]);
      WordsAreRuns(s[i + n..]);
      SplitStep(s, i, n);
    }
  }

  lemma SplitAllSpace(s: string)
    requires LeadingSpace(s) == |s|
    ensures |Gaps(s)| == |Words(s)| + 1
    ensures Separators(Gaps(s))
    ensures s == Interleave(Gaps(s), Words(s))
  {
    assert AllSpace(s);
    assert Words(s) == [] && Gaps(s) == [s];
    SeparatorsOne(s);
  }

  /** The inductive step of WordsSplit: the first word and the whitespace in
      front of it, then the rest of the text. */
  lemma SplitStep(s: string, i: nat, n: nat)
    requires i == LeadingSpace(s) && i < |s| && n == WordLength(s[i..])
    requires var rest := s[i + n..];
      && |Gaps(rest)| == |Words(rest)| + 1 && Separators(Gaps(rest))
      && rest == Interleave(Gaps(rest), Words(rest))
      && forall j :: 0 <= j < |Words(rest)| ==> Words(rest)[j] != [] && NoSpace(Words(rest)[j])
    ensures |Gaps(s)| == |Words(s)| + 1
    ensures Separators(Gaps(s))
    ensures s == Interleave(Gaps(s), Words(s))
  {
    var rest := s[i + n..];
    if i + n < |s| {
      assert s[i..][n] == s[i + n];
    }
    FirstWord(s, i, n);
    WordsUnfold(s, i, n);
    GapsUnfold(s, i, n);
    SplitCons(s, s[..i], s[i..i + n], rest, Gaps(rest), Words(rest));
  }

  /** The whitespace in front of the first word, the word, and what follows,
      which is empty or starts with whitespace. */
  lemma FirstWord(s: string, i: nat, n: nat)
    requires i + n <= |s| && forall k :: 0 <= k < i ==> IsSpace(s[k])
    requires i + n < |s| ==> IsSpace(s[i + n])
    ensures AllSpace(s[..i])
    ensures s == s[..i] + (s[i..i + n] + s[i + n..])
    ensures s[i + n..] == [] || IsSpace(s[i + n..][0])
  {
    SpacePrefix(s, i);
    ThreeSlices(s, i, i + n);
  }

  lemma ThreeSlices(s: string, i: nat, j: nat)
    requires i <= j <= |s|
    ensures s == s[..i] + (s[i..j] + s[j..])
  {
    assert s[i..j] + s[j..] == s[i..];
  }

  lemma WordsUnfold(s: string, i: nat, n: nat)
    requires i == LeadingSpace(s) && i < |s| && n == WordLength(s[i..])
    ensures Words(s) == [s[i..i + n]] + Words(s[i + n..])
  {
  }

  lemma GapsUnfold(s: string, i: nat, n: nat)
    requires i == LeadingSpace(s) && i < |s| && n == WordLength(s[i..])
    ensures Gaps(s) == [s[..i]] + Gaps(s[i + n..])
  {
  }

  /** One more word in front: the gaps gain the whitespace before it. */
  lemma SplitCons(s: string, lead: string, w: string, rest: string, gr: seq<string>, wr: seq<string>)
    requires s == lead + (w + rest) && AllSpace(lead)
    requires rest == [] || IsSpace(rest[0])
    requires |gr| == |wr| + 1 && Separators(gr) && rest == Interleave(gr, wr)
    requires wr != [] ==> wr[0] != [] && NoSpace(wr[0])
    ensures Separators([lead] + gr)
    ensures s == Interleave([lead] + gr, [w] + wr)
  {
    InterleaveCons(lead, w, gr, wr);
    AppendAssoc(lead, w, rest);
    if wr != [] {
      FirstGapNonEmpty(rest, gr, wr);
    }
    SeparatorsCons(lead, gr);
  }

  lemma InterleaveCons(lead: string, w: string, gr: seq<string>, wr: seq<string>)
    requires |gr| == |wr| + 1
    ensures Interleave([lead] + gr, [w] + wr) == lead + w + Interleave(gr, wr)
  {
    assert ([lead] + gr)[1..] == gr && ([w] + wr)[1..] == wr;
  }

  /** A text that goes on after a word starts with whitespace, so the run in
      front of the next word is not empty. */
  lemma FirstGapNonEmpty(rest: string, gr: seq<string>, wr: seq<string>)
    requires |gr| == |wr| + 1 && wr != [] && wr[0] != [] && NoSpace(wr[0])
    requires rest == Interleave(gr, wr)
    requires rest == [] || IsSpace(rest[0])
    ensures gr[0] != []
  {
  }

  lemma SeparatorsOne(g: string)
    requires AllSpace(g)
    ensures Separators([g])
  {
  }

  lemma SeparatorsCons(lead: string, gr: seq<string>)
    requires AllSpace(lead) && Separators(gr)
    requires |gr| > 1 ==> gr[0] != []
    ensures Separators([lead] + gr)
  {
    var gaps := [lead] + gr;
    forall i | 0 < i < |gaps| ensures gaps[i] == gr[i - 1] {
    }
  }

  // ---------------------------------------------------------------------------
  // Price text: replace(',', ''), the first match of [\d,]+, int()

  /** `s.replace(',', '')`: a single character is dropped iff it is a comma,
      and the text is processed piece by piece (RemoveCommasAppend), so
      exactly the non-comma characters remain, in order. */
  function RemoveCommas(s: string): (r: string)
    ensures ',' !in r
    ensures |r| <= |s|
    ensures ',' !in s ==> r == s
    ensures |s| == 1 ==> r == if s[0] == ',' then [] else s
  {
    if s == [] then []
    else (if s[0] == ',' then [] else [s[0]]) + RemoveCommas(s[1..])
  }

  lemma {:induction false} RemoveCommasAppend(a: string, b: string)
    ensures RemoveCommas(a + b) == RemoveCommas(a) + RemoveCommas(b)
    decreases |a|
  {
    if a == [] {
      assert a + b == b;
    } else {
      var head := if a[0] == ',' then [] else [a[0]];
      assert (a + b)[0] == a[0];
      assert (a + b)[1..] == a[1..] + b;
      RemoveCommasAppend(a[1..], b);
      assert RemoveCommas(a + b) == head + RemoveCommas(a[1..] + b);
      assert RemoveCommas(a) == head + RemoveCommas(a[1..]);
      AppendAssoc(head, RemoveCommas(a[1..]), RemoveCommas(b));
    }
  }

  /** The longest prefix of `s` made of digits. */
  function LeadingDigits(s: string): (r: string)
    ensures |r| <= |s| && r == s[..|r|]
    ensures AllDigits(r)
    ensures |r| == |s| || !IsDigit(s[|r|])
  {
    if s == [] || !IsDigit(s[0]) then [] else [s[0]] + LeadingDigits(s[1..])
  }

  /** Index of the first digit of `s`, or `|s|` when it has none. */
  function DigitRunStart(s: string): (i: nat)
    ensures i <= |s|
    ensures forall k :: 0 <= k < i ==> !IsDigit(s[k])
    ensures i < |s| ==> IsDigit(s[i])
  {
    if s == [] || IsDigit(s[0]) then 0 else 1 + DigitRunStart(s[1..])
  }

  /** The first match of `[\d,]+` in a comma-free string: absent exactly when
      the string has no digit; otherwise the maximal run of digits that starts
      at the first digit. */
  function FirstDigitRun(s: string): (r: Option<string>)
    ensures r.None? <==> forall k :: 0 <= k < |s| ==> !IsDigit(s[k])
    ensures r.Some? ==>
      var i := DigitRunStart(s);
      && r.value != []
      && AllDigits(r.value)
      && i + |r.value| <= |s|
      && s[i..i + |r.value|] == r.value
      && (i + |r.value| == |s| || !IsDigit(s[i + |r.value|]))
  {
    var i := DigitRunStart(s);
    if i == |s| then None
    else
      var d := LeadingDigits(s[i..]);
      assert d != [] by { assert s[i..][0] == s[i]; }
      Some(d)
  }

  /** `int(d)` for a string of decimal digits. */
  function DigitsValue(d: string): (v: nat)
    requires AllDigits(d)
  {
    if d == [] then 0 else 10 * DigitsValue(d[..|d| - 1]) + (d[|d| - 1] as int - '0' as int)
  }

  /** The number a price text holds: `int()` of the first match of `[\d,]+`
      once the commas are gone. There is none exactly when the text has no
      digit. */
  function ReadNumber(text: string): (n: Option<nat>)
    ensures n.None? <==> NoDigit(text)
  {
    DigitSurvivesCommaRemoval(text);
    match FirstDigitRun(RemoveCommas(text))
    case None => None
    case Some(d) => Some(DigitsValue(d))
  }

  /** The price-text rule shared by every price reader: the number the text
      holds, kept only when it lies in [lo, hi]. */
  function ParsePrice(text: string, lo: int, hi: int): (r: Option<nat>)
    ensures r.Some? <==> ReadNumber(text).Some? && lo <= ReadNumber(text).value <= hi
    ensures r.Some? ==> r == ReadNumber(text)
    ensures r.Some? ==> lo <= r.value <= hi
    ensures r.Some? ==> !NoDigit(text)
  {
    var n := ReadNumber(text);
    if n.Some? && lo <= n.value <= hi then n else None
  }

  /** Commas never matter: `"1,299"` reads like `"1299"`. */
  lemma CommasIgnored(a: string, b: string)
    ensures ReadNumber(a + [','] + b) == ReadNumber(a + b)
  {
    CommasDropped(a, b);
    SameCommaFree(a + [','] + b, a + b);
  }

  lemma CommasDropped(a: string, b: string)
    ensures RemoveCommas(a + [','] + b) == RemoveCommas(a + b)
  {
    RemoveCommasAppend(a + [','], b);
    RemoveCommasAppend(a, [',']);
    RemoveCommasAppend(a, b);
    assert RemoveCommas([',']) == [];
    assert RemoveCommas(a) + [] == RemoveCommas(a);
  }

  /** ReadNumber sees the text only through its comma-free form. */
  lemma SameCommaFree(x: string, y: string)
    requires RemoveCommas(x) == RemoveCommas(y)
    ensures ReadNumber(x) == ReadNumber(y)
  {
  }

  /** Text without digits in front of the number is skipped: `"Rs. 499"`
      reads like `"499"`. */
  lemma ReadNumberSkips(x: string, rest: string)
    requires NoDigit(x)
    ensures ReadNumber(x + rest) == ReadNumber(rest)
  {
    RemoveCommasAppend(x, rest);
    DigitSurvivesCommaRemoval(x);
    FirstDigitRunSkips(RemoveCommas(x), RemoveCommas(rest));
  }

  /** The number is the whole leading digit run when the text goes on with
      something that is neither a digit nor a comma: `"1299.00"` reads 1299. */
  lemma ReadNumberRun(d: string, rest: string)
    requires d != [] && AllDigits(d)
    requires rest == [] || (!IsDigit(rest[0]) && rest[0] != ',')
    ensures ReadNumber(d + rest) == Some(DigitsValue(d))
  {
    RemoveCommasAppend(d, rest);
    assert RemoveCommas(d) == d;
    var v := RemoveCommas(rest);
    if rest != [] {
      RemoveCommasAppend([rest[0]], rest[1..]);
      assert [rest[0]] + rest[1..] == rest;
      assert v[0] == rest[0];
    }
    FirstDigitRunLeading(d, v);
  }

  lemma {:induction false} FirstDigitRunSkips(u: string, v: string)
    requires NoDigit(u)
    ensures FirstDigitRun(u + v) == FirstDigitRun(v)
    decreases |u|
  {
    if u != [] {
      assert (u + v)[1..] == u[1..] + v;
      assert !IsDigit((u + v)[0]);
      FirstDigitRunSkips(u[1..], v);
      assert DigitRunStart(u + v) == 1 + DigitRunStart(u[1..] + v);
      assert (u + v)[DigitRunStart(u + v)..] == (u[1..] + v)[DigitRunStart(u[1..] + v)..];
    } else {
      assert u + v == v;
    }
  }

  lemma FirstDigitRunLeading(d: string, v: string)
    requires d != [] && AllDigits(d)
    requires v == [] || !IsDigit(v[0])
    ensures FirstDigitRun(d + v) == Some(d)
  {
    assert DigitRunStart(d + v) == 0;
    assert (d + v)[0..] == d + v;
    LeadingDigitsOf(d, v);
  }

  lemma {:induction false} LeadingDigitsOf(d: string, v: string)
    requires AllDigits(d)
    requires v == [] || !IsDigit(v[0])
    ensures LeadingDigits(d + v) == d
    decreases |d|
  {
    if d != [] {
      assert (d + v)[1..] == d[1..] + v;
      LeadingDigitsOf(d[1..], v);
      assert d == [d[0]] + d[1..];
    } else {
      assert d + v == v;
    }
  }

  predicate NoDigit(s: string) {
    forall k :: 0 <= k < |s| ==> !IsDigit(s[k])
  }

  /** Removing commas neither adds nor loses a digit. */
  lemma DigitSurvivesCommaRemoval(s: string)
    ensures NoDigit(RemoveCommas(s)) <==> NoDigit(s)
  {
    NoDigitKept(s);
    NoDigitBack(s);
  }

  lemma {:induction false} NoDigitKept(s: string)
    ensures NoDigit(s) ==> NoDigit(RemoveCommas(s))
    decreases |s|
  {
    if s != [] && NoDigit(s) {
      var head := if s[0] == ',' then [] else [s[0]];
      assert RemoveCommas(s) == head + RemoveCommas(s[1..]);
      assert NoDigit(s[1..]) by {
        forall k | 0 <= k < |s[1..]| ensures !IsDigit(s[1..][k]) {
          assert s[1..][k] == s[k + 1];
        }
      }
      NoDigitKept(s[1..]);
    }
  }

  lemma {:induction false} NoDigitBack(s: string)
    ensures NoDigit(RemoveCommas(s)) ==> NoDigit(s)
    decreases |s|
  {
    if s != [] && NoDigit(RemoveCommas(s)) {
      var head := if s[0] == ',' then [] else [s[0]];
      var tail := RemoveCommas(s[1..]);
      assert RemoveCommas(s) == head + tail;
      assert !IsDigit(s[0]) by {
        if s[0] != ',' { assert RemoveCommas(s)[0] == s[0]; }
      }
      assert NoDigit(tail) by {
        forall k | 0 <= k < |tail| ensures !IsDigit(tail[k]) {
          assert tail[k] == RemoveCommas(s)[k + |head|];
        }
      }
      NoDigitBack(s[1..]);
      forall k | 0 <= k < |s| ensures !IsDigit(s[k]) {
        if k > 0 { assert s[k] == s[1..][k - 1]; }
      }
    }
  }

  // ---------------------------------------------------------------------------
  // re.sub(r'<[^>]+>', '', s)

  /** Index of the first `>` in `s`, if any. */
  function FirstGreater(s: string): (r: Option<nat>)
    ensures r.Some? ==> r.value < |s| && s[r.value] == '>'
    ensures r.Some? ==> forall k :: 0 <= k < r.value ==> s[k] != '>'
    ensures r.None? ==> '>' !in s
  {
    if s == [] then None
    else if s[0] == '>' then Some(0)
    else match FirstGreater(s[1..])
      case None => None
      case Some(k) => Some(k + 1)
  }

  /** Where the tag `<[^>]+>` that starts at `s[0]` ends, if one does: the
      first `>` after the `<`, provided at least one character lies between. */
  function TagEnd(s: string): (r: Option<nat>)
    ensures r.Some? ==> 2 <= r.value < |s| && s[0] == '<' && s[r.value] == '>'
    ensures r.Some? ==> forall k :: 1 <= k < r.value ==> s[k] != '>'
  {
    if s == [] || s[0] != '<' then None
    else match FirstGreater(s[1..])
      case Some(k) =>
        if k >= 1 then
          assert forall j :: 1 <= j < k + 1 ==> s[j] == s[1..][j - 1];
          Some(k + 1)
        else None
      case None => None
  }

  /** `re.sub(r'<[^>]+>', '', s)`: scanning left to right, every tag is
      dropped and every other character kept. */
  function RemoveTags(s: string): (r: string)
    ensures |r| <= |s|
    decreases |s|
  {
    if s == [] then []
    else
      match TagEnd(s)
      case Some(j) => RemoveTags(s[j + 1..])
      case None => [s[0]] + RemoveTags(s[1..])
  }

  /** Text without a `<` is copied through unchanged. */
  lemma {:induction false} RemoveTagsKeepsText(u: string, v: string)
    requires '<' !in u
    ensures RemoveTags(u + v) == u + RemoveTags(v)
    decreases |u|
  {
    if u == [] {
      assert u + v == v;
    } else {
      calc {
        RemoveTags(u + v);
        == { RemoveTagsKeep(u + v); }
        [u[0]] + RemoveTags((u + v)[1..]);
        == { assert (u + v)[1..] == u[1..] + v; }
        [u[0]] + RemoveTags(u[1..] + v);
        == { RemoveTagsKeepsText(u[1..], v); }
        [u[0]] + (u[1..] + RemoveTags(v));
        == { assert [u[0]] + u[1..] == u; }
        u + RemoveTags(v);
      }
    }
  }

  /** Tag-free text is left alone. */
  lemma RemoveTagsPlain(s: string)
    requires '<' !in s
    ensures RemoveTags(s) == s
  {
    RemoveTagsKeepsText(s, []);
    assert s + [] == s;
  }

  /** A tag, `<` then at least one character other than `>` then `>`, is
      dropped whole. */
  lemma RemoveTagsDropsTag(m: string, v: string)
    requires m != [] && '>' !in m
    ensures RemoveTags(['<'] + m + ['>'] + v) == RemoveTags(v)
  {
    var s := ['<'] + m + ['>'] + v;
    var t := s[1..];
    assert t == m + ['>'] + v;
    assert t[|m|] == '>';
    assert forall k :: 0 <= k < |m| ==> t[k] == m[k];
    assert FirstGreater(t) == Some(|m|);
    assert TagEnd(s) == Some(|m| + 1);
    assert s[|m| + 2..] == v;
  }

  /** `<>` is no tag: both characters stay. */
  lemma RemoveTagsKeepsEmptyTag(s: string)
    requires |s| >= 2 && s[0] == '<' && s[1] == '>'
    ensures RemoveTags(s) == s[..2] + RemoveTags(s[2..])
  {
    var t := s[1..];
    KeepOpeningOfEmptyTag(s);
    RemoveTagsKeep(t);
    assert t[1..] == s[2..];
    assert s[..2] == [s[0]] + [t[0]];
  }

  lemma KeepOpeningOfEmptyTag(s: string)
    requires |s| >= 2 && s[1] == '>'
    ensures RemoveTags(s) == [s[0]] + RemoveTags(s[1..])
  {
    assert s[1..][0] == '>';
    assert TagEnd(s).None?;
  }

  /** A character that does not open a tag is kept. */
  lemma RemoveTagsKeep(s: string)
    requires s != [] && (s[0] != '<' || TagEnd(s).None?)
    ensures RemoveTags(s) == [s[0]] + RemoveTags(s[1..])
  {
  }

  /** A `<` that no `>` closes is kept as text. */
  lemma {:induction false} RemoveTagsKeepsUnclosed(s: string)
    requires '>' !in s
    ensures RemoveTags(s) == s
    decreases |s|
  {
    if s != [] {
      RemoveTagsKeep(s);
      RemoveTagsKeepsUnclosed(s[1..]);
    }
  }
}
