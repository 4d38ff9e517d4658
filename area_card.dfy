/**
 * The listing card: `formatNumber`'s thousands separators, the detail-page
 * route a click navigates to, and the image fallback.
 *
 * `formatNumber` is `s.replace(/\B(?=(\d{3})+(?!\d))/g, ",")` on the number's
 * string form: a comma goes in at every position that is not a word boundary
 * and is followed by one or more groups of three digits and then no digit.
 * JavaScript's `\d` and `\b` (no `u` flag) know only ASCII.
 */
module AreaCard {
  import opened Wrappers

  predicate IsDigit(c: char)
  {
    '0' <= c <= '9'
  }

  /** `\w`: the characters a word boundary is defined by. */
  predicate IsWordChar(c: char)
  {
    IsDigit(c) || 'a' <= c <= 'z' || 'A' <= c <= 'Z' || c == '_'
  }

  predicate AllDigits(s: string)
  {
    forall i :: 0 <= i < |s| ==> IsDigit(s[i])
  }

  /** Whether the character at index `i` exists and is a word character. */
  predicate WordAt(s: string, i: int)
  {
    0 <= i < |s| && IsWordChar(s[i])
  }

  /** `\B` at position `p`: the characters on both sides are alike (word or not). */
  predicate NotBoundary(s: string, p: nat)
  {
    WordAt(s, p - 1) == WordAt(s, p)
  }

  /** `(\d{3})+(?!\d)` matched with exactly `k` groups at position `p`. */
  predicate GroupsThenNoDigit(s: string, p: nat, k: nat)
  {
    && 1 <= k && p + 3 * k <= |s|
    && AllDigits(s[p..p + 3 * k])
    && (p + 3 * k == |s| || !IsDigit(s[p + 3 * k]))
  }

  /** The lookahead `(?=(\d{3})+(?!\d))` succeeds at position `p`. */
  predicate LookaheadAt(s: string, p: nat)
  {
    exists k: nat | k <= |s| :: GroupsThenNoDigit(s, p, k)
  }

  /** The regex matches (the empty string) at position `p`. */
  predicate RegexMatchesAt(s: string, p: nat)
  {
    NotBoundary(s, p) && LookaheadAt(s, p)
  }

  /**
   * Where a comma goes in: after a word character, before a run of 3, 6,
   * 9, ... digits (`CommaIsRegexMatch` shows this is where the regex matches).
   */
  predicate CommaAt(s: string, p: nat)
    requires p <= |s|
  {
    0 < p && IsWordChar(s[p - 1]) && DigitRun(s, p) > 0 && DigitRun(s, p) % 3 == 0
  }

  /**
   * The output from position `p` on: each character, preceded by a comma
   * where the regex matches. (At the very end no digit follows, so no match.)
   */
  function FormatFrom(s: string, p: nat): string
    requires p <= |s|
    decreases |s| - p
  {
    if p == |s| then []
    else (if CommaAt(s, p) then [','] else []) + [s[p]] + FormatFrom(s, p + 1)
  }

  /**
   * `formatNumber` applied to the number's string form. The separators are
   * the only thing it adds: deleting every comma from the output gives the
   * input with its own commas deleted, which is the input itself when it has none.
   */
  function FormatNumber(s: string): (r: string)
    ensures RemoveCommas(r) == RemoveCommas(s)
    ensures ',' !in s ==> RemoveCommas(r) == s
  {
    RemoveCommasFrom(s, 0);
    assert s[0..] == s;
    FormatFrom(s, 0)
  }

  /** The number of digits in the maximal run of digits starting at `p`. */
  function DigitRun(s: string, p: nat): (n: nat)
    requires p <= |s|
    ensures p + n <= |s|
    decreases |s| - p
  {
    if p < |s| && IsDigit(s[p]) then 1 + DigitRun(s, p + 1) else 0
  }

  /** The run is all digits and is followed by the end or a non-digit. */
  lemma {:induction false} DigitRunIsMaximal(s: string, p: nat)
    requires p <= |s|
    ensures forall i :: p <= i < p + DigitRun(s, p) ==> IsDigit(s[i])
    ensures p + DigitRun(s, p) < |s| ==> !IsDigit(s[p + DigitRun(s, p)])
    decreases |s| - p
  {
    if p < |s| && IsDigit(s[p]) {
      DigitRunIsMaximal(s, p + 1);
    }
  }

  /** A run of digits that ends at `q` (end of string or a non-digit) is the maximal run. */
  lemma {:induction false} DigitRunEndsAt(s: string, p: nat, q: nat)
    requires p <= q <= |s|
    requires forall i :: p <= i < q ==> IsDigit(s[i])
    requires q == |s| || !IsDigit(s[q])
    ensures DigitRun(s, p) == q - p
    decreases q - p
  {
    if p < q {
      DigitRunEndsAt(s, p + 1, q);
    }
  }

  /**
   * The lookahead succeeds exactly where a run of digits starts whose length
   * is a positive multiple of three.
   */
  lemma LookaheadIff(s: string, p: nat)
    requires p <= |s|
    ensures LookaheadAt(s, p) <==> DigitRun(s, p) > 0 && DigitRun(s, p) % 3 == 0
  {
    var n := DigitRun(s, p);
    if LookaheadAt(s, p) {
      var k: nat :| k <= |s| && GroupsThenNoDigit(s, p, k);
      forall i | p <= i < p + 3 * k ensures IsDigit(s[i]) {
        assert s[p..p + 3 * k][i - p] == s[i];
      }
      DigitRunEndsAt(s, p, p + 3 * k);
    }
    if n > 0 && n % 3 == 0 {
      var k := n / 3;
      DigitRunIsMaximal(s, p);
      assert AllDigits(s[p..p + 3 * k]);
      assert GroupsThenNoDigit(s, p, k);
    }
  }

  /** The positions `formatNumber` puts a comma before are exactly the regex's matches. */
  lemma CommaIsRegexMatch(s: string, p: nat)
    requires p <= |s|
    ensures RegexMatchesAt(s, p) <==> CommaAt(s, p)
  {
    LookaheadIff(s, p);
  }

  // ---- Deleting the commas gives the input back ----

  function RemoveCommas(s: string): (r: string)
    ensures ',' !in r
    ensures ',' !in s ==> r == s
  {
    if s == [] then [] else (if s[0] == ',' then [] else [s[0]]) + RemoveCommas(s[1..])
  }

  lemma {:induction false} RemoveCommasAppend(a: string, b: string)
    ensures RemoveCommas(a + b) == RemoveCommas(a) + RemoveCommas(b)
  {
    if a == [] {
      assert a + b == b;
    } else {
      assert (a + b)[0] == a[0];
      assert (a + b)[1..] == a[1..] + b;
      RemoveCommasAppend(a[1..], b);
    }
  }

  lemma {:induction false} RemoveCommasFrom(s: string, p: nat)
    requires p <= |s|
    ensures RemoveCommas(FormatFrom(s, p)) == RemoveCommas(s[p..])
    decreases |s| - p
  {
    if p < |s| {
      var rest := FormatFrom(s, p + 1);
      RemoveCommasFrom(s, p + 1);
      if CommaAt(s, p) {
        FormatStepComma(s, p);
        RemoveCommasAppend([',', s[p]], rest);
        assert [',', s[p]][1..] == [s[p]];
      } else {
        FormatStepPlain(s, p);
        RemoveCommasAppend([s[p]], rest);
      }
      assert s[p..] == [s[p]] + s[p + 1..];
      RemoveCommasAppend([s[p]], s[p + 1..]);
    }
  }

  // ---- Digit strings: groups of three from the right ----

  /** Groups of three characters, each preceded by a comma. */
  function Chunks(t: string): (r: string)
    requires |t| % 3 == 0
    ensures |r| == |t| / 3 * 4
    decreases |t|
  {
    if t == [] then [] else [','] + t[..3] + Chunks(t[3..])
  }

  /** The length of the leading group of a digit string: 1, 2 or 3. */
  function HeadLength(n: nat): (h: nat)
    requires n > 0
    ensures 1 <= h <= 3 && h <= n && (n - h) % 3 == 0 && h + 3 * ((n - h) / 3) == n
  {
    (n - 1) % 3 + 1
  }

  lemma DigitRunAllDigits(s: string, p: nat)
    requires AllDigits(s) && p <= |s|
    ensures DigitRun(s, p) == |s| - p
  {
    DigitRunEndsAt(s, p, |s|);
  }

  /**
   * In a string of digits only, a comma goes in before position `p` exactly
   * when `p` is strictly inside the string and a multiple of three digits follow.
   */
  lemma CommaBeforeDigits(s: string, p: nat)
    requires AllDigits(s) && p <= |s|
    ensures CommaAt(s, p) <==> 0 < p < |s| && (|s| - p) % 3 == 0
  {
    DigitRunAllDigits(s, p);
  }

  /** One step of the output where a comma goes in. */
  lemma FormatStepComma(s: string, p: nat)
    requires p < |s| && CommaAt(s, p)
    ensures FormatFrom(s, p) == [',', s[p]] + FormatFrom(s, p + 1)
  {
  }

  /** One step of the output where no comma goes in. */
  lemma FormatStepPlain(s: string, p: nat)
    requires p < |s| && !CommaAt(s, p)
    ensures FormatFrom(s, p) == [s[p]] + FormatFrom(s, p + 1)
  {
  }

  lemma GroupCommas(s: string, p: nat, k: nat)
    requires 0 < p <= |s| && IsWordChar(s[p - 1]) && DigitRun(s, p) == 3 * k && k > 0
    ensures p + 3 <= |s| && IsWordChar(s[p + 2]) && DigitRun(s, p + 3) == 3 * (k - 1)
    ensures CommaAt(s, p) && !CommaAt(s, p + 1) && !CommaAt(s, p + 2)
  {
    assert DigitRun(s, p + 1) == 3 * k - 1;
    assert DigitRun(s, p + 2) == 3 * k - 2;
    assert (3 * k - 1) % 3 == 2 && (3 * k - 2) % 3 == 1;
  }

  lemma FormatGroup(s: string, p: nat, k: nat)
    requires 0 < p <= |s| && IsWordChar(s[p - 1]) && DigitRun(s, p) == 3 * k && k > 0
    ensures p + 3 <= |s| && IsWordChar(s[p + 2]) && DigitRun(s, p + 3) == 3 * (k - 1)
    ensures FormatFrom(s, p) == [',', s[p], s[p + 1], s[p + 2]] + FormatFrom(s, p + 3)
  {
    GroupCommas(s, p, k);
    var rest := FormatFrom(s, p + 3);
    FormatStepPlain(s, p + 2);
    FormatStepPlain(s, p + 1);
    FormatStepComma(s, p);
    assert [',', s[p]] + ([s[p + 1]] + ([s[p + 2]] + rest)) == [',', s[p], s[p + 1], s[p + 2]] + rest;
  }

  /** The digits that remain after the leading group, in groups of three. */
  lemma {:induction false} FormatTail(s: string, p: nat, k: nat)
    requires 0 < p && p + 3 * k == |s| && IsWordChar(s[p - 1]) && DigitRun(s, p) == 3 * k
    ensures FormatFrom(s, p) == Chunks(s[p..])
    decreases k
  {
    if k > 0 {
      FormatGroup(s, p, k);
      FormatTail(s, p + 3, k - 1);
      var t := s[p..];
      assert t[..3] == [s[p], s[p + 1], s[p + 2]] && t[3..] == s[p + 3..];
    }
  }

  /**
   * A position inside the leading group: no multiple of three digits
   * follows, so the digit is copied without a comma.
   */
  lemma HeadStep(s: string, p: nat, h: nat, k: nat)
    requires h + 3 * k == |s| && p < h <= 3 && DigitRun(s, p) == |s| - p
    ensures IsWordChar(s[p]) && DigitRun(s, p + 1) == |s| - p - 1
    ensures FormatFrom(s, p) == [s[p]] + FormatFrom(s, p + 1)
  {
    assert !CommaAt(s, p) by {
      if p > 0 {
        assert |s| - p == 3 * k + (h - p) && 0 < h - p < 3;
        assert (3 * k + (h - p)) % 3 == h - p;
      }
    }
    FormatStepPlain(s, p);
  }

  /** Inside the leading group (of length h) no comma goes in; then the groups of three. */
  lemma {:induction false} FormatHead(s: string, p: nat, h: nat, k: nat)
    requires h + 3 * k == |s| && 1 <= h <= 3 && p <= h
    requires DigitRun(s, p) == |s| - p && (p > 0 ==> IsWordChar(s[p - 1]))
    ensures FormatFrom(s, p) == s[p..h] + Chunks(s[h..])
    decreases h - p
  {
    if p == h {
      FormatTail(s, h, k);
    } else {
      HeadStep(s, p, h, k);
      FormatHead(s, p + 1, h, k);
      assert s[p..h] == [s[p]] + s[p + 1..h];
    }
  }

  /**
   * A digit string gets a leading group of 1 to 3 digits and then groups of
   * exactly three, each after a comma.
   */
  lemma FormatDigits(s: string)
    requires AllDigits(s) && s != []
    ensures FormatNumber(s) == s[..HeadLength(|s|)] + Chunks(s[HeadLength(|s|)..])
  {
    var h := HeadLength(|s|);
    DigitRunAllDigits(s, 0);
    FormatHead(s, 0, h, (|s| - h) / 3);
  }

  /** At most three digits are returned unchanged. */
  lemma FormatShort(s: string)
    requires AllDigits(s) && |s| <= 3
    ensures FormatNumber(s) == s
  {
    if s != [] {
      FormatDigits(s);
      assert s[HeadLength(|s|)..] == [];
    }
  }

  // ---- A non-word character splits the formatting ----

  lemma {:induction false} DigitRunPrefix(x: string, t: string, p: nat)
    requires p <= |x| && t != [] && !IsDigit(t[0])
    ensures DigitRun(x + t, p) == DigitRun(x, p)
    decreases |x| - p
  {
    if p < |x| {
      DigitRunPrefix(x, t, p + 1);
    }
  }

  lemma {:induction false} DigitRunSuffix(x: string, y: string, j: nat)
    requires j <= |y|
    ensures DigitRun(x + y, |x| + j) == DigitRun(y, j)
    decreases |y| - j
  {
    if j < |y| {
      DigitRunSuffix(x, y, j + 1);
    }
  }

  lemma {:induction false} FormatFromSuffix(x: string, c: char, y: string, j: nat)
    requires !IsWordChar(c) && j <= |y|
    ensures FormatFrom(x + [c] + y, |x| + 1 + j) == FormatFrom(y, j)
    decreases |y| - j
  {
    if j < |y| {
      var s := x + [c] + y;
      var q := |x| + 1 + j;
      DigitRunSuffix(x + [c], y, j);
      assert s[q] == y[j];
      assert j > 0 ==> s[q - 1] == y[j - 1];
      assert j == 0 ==> s[q - 1] == c;
      assert CommaAt(s, q) == CommaAt(y, j);
      FormatFromSuffix(x, c, y, j + 1);
      assert FormatFrom(s, q) == (if CommaAt(s, q) then [','] else []) + [s[q]] + FormatFrom(s, q + 1);
    }
  }

  lemma {:induction false} FormatFromPrefix(x: string, c: char, y: string, p: nat)
    requires !IsWordChar(c) && p <= |x|
    ensures FormatFrom(x + [c] + y, p) == FormatFrom(x, p) + [c] + FormatFrom(y, 0)
    decreases |x| - p
  {
    var s := x + [c] + y;
    DigitRunPrefix(x, [c] + y, p);
    assert s == x + ([c] + y);
    if p == |x| {
      FormatFromSuffix(x, c, y, 0);
    } else {
      FormatFromPrefix(x, c, y, p + 1);
    }
  }

  /**
   * A non-word character (such as `.`, `,` or `-`) splits the input: each
   * side is formatted on its own.
   */
  lemma FormatSplit(x: string, c: char, y: string)
    requires !IsWordChar(c)
    ensures FormatNumber(x + [c] + y) == FormatNumber(x) + [c] + FormatNumber(y)
  {
    FormatFromPrefix(x, c, y, 0);
  }

  lemma {:induction false} FormatGrouped(d: string, t: string)
    requires AllDigits(d) && 1 <= |d| <= 3 && AllDigits(t) && |t| % 3 == 0
    ensures FormatNumber(d + Chunks(t)) == d + Chunks(t)
    decreases |t|
  {
    if t == [] {
      assert d + Chunks(t) == d;
      FormatShort(d);
    } else {
      var rest := t[..3] + Chunks(t[3..]);
      assert d + Chunks(t) == d + [','] + rest;
      FormatSplit(d, ',', rest);
      FormatShort(d);
      FormatGrouped(t[..3], t[3..]);
    }
  }

  /** On a digit string, formatting the formatted string changes nothing more. */
  lemma FormatIdempotent(s: string)
    requires AllDigits(s)
    ensures FormatNumber(FormatNumber(s)) == FormatNumber(s)
  {
    if s != [] {
      var h := HeadLength(|s|);
      FormatDigits(s);
      FormatGrouped(s[..h], s[h..]);
    }
  }

  /**
   * The card's area, `Number(area).toFixed(2)`: only the integer part gains
   * separators; the two decimals are kept as they are.
   */
  lemma FormatFixed2(whole: string, decimals: string)
    requires AllDigits(whole) && whole != [] && AllDigits(decimals) && |decimals| == 2
    ensures FormatNumber(whole + "." + decimals)
      == whole[..HeadLength(|whole|)] + Chunks(whole[HeadLength(|whole|)..]) + "." + decimals
  {
    FormatSplit(whole, '.', decimals);
    FormatDigits(whole);
    FormatShort(decimals);
  }

  lemma ChunksExample()
    ensures Chunks("234567") == ",234,567"
  {
    assert "234567"[..3] == "234" && "234567"[3..] == "567";
    assert "567"[..3] == "567" && "567"[3..] == "";
  }

  /** The digit facts the card's example rests on. */
  lemma ExampleDigits()
    ensures AllDigits("1234567") && AllDigits("89")
    ensures HeadLength(7) == 1 && "1234567"[..1] == "1" && "1234567"[1..] == "234567"
  {
  }

  /** The card's example: `"1234567.89"` is shown as `"1,234,567.89"`. */
  lemma FormatExample(s: string)
    requires s == "1234567.89"
    ensures FormatNumber(s) == "1,234,567.89"
  {
    var whole, decimals := "1234567", "89";
    ExampleDigits();
    ChunksExample();
    FormatFixed2(whole, decimals);
    assert s == whole + "." + decimals;
  }

  // ---- Route and image ----

  /** `handleClick`'s target: the listing's detail page in the current locale. */
  function AreaRoute(locale: string, id: string): (route: string)
    ensures |route| == |locale| + |id| + 8
    ensures route[..|locale| + 1] == "/" + locale
    ensures route[|locale| + 1..|locale| + 8] == "/areas/"
    ensures route[|route| - |id|..] == id
  {
    "/" + locale + "/areas/" + id
  }

  /** `imageUrl || "/placeholder.svg"`: a missing or empty URL falls back. */
  function ImageSource(imageUrl: Option<string>): (src: string)
    ensures src != ""
    ensures imageUrl.Some? && imageUrl.value != "" ==> src == imageUrl.value
    ensures imageUrl.None? || imageUrl.value == "" ==> src == "/placeholder.svg"
  {
    if imageUrl.Some? && imageUrl.value != "" then imageUrl.value else "/placeholder.svg"
  }
}
