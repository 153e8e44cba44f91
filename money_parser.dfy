/**
 * The extra-amount parser: `re.findall(r"[\d]+[\.,]\d{2}", texto)` followed by
 * the sum of the matched amounts, with `,` read as the decimal point.
 *
 * Text is a `string` (a `seq<char>`); every amount is exact, in integer cents:
 * the integer part times 100 plus the two fraction digits.
 */
module MoneyParser {
  import opened Wrappers

  predicate IsDigit(c: char) { '0' <= c <= '9' }

  predicate IsSeparator(c: char) { c == '.' || c == ',' }

  /** True when every character of `t` is a digit. */
  predicate AllDigits(t: string) {
    forall k :: 0 <= k < |t| ==> IsDigit(t[k])
  }

  /**
   * `t` is one amount exactly: one or more digits, a single `.` or `,`,
   * then exactly two digits.
   */
  predicate IsAmountText(t: string) {
    && |t| >= 4
    && AllDigits(t[..|t| - 3])
    && IsSeparator(t[|t| - 3])
    && IsDigit(t[|t| - 2])
    && IsDigit(t[|t| - 1])
  }

  /** The pattern matches `s` at position `p`, and that match ends at `e`. */
  ghost predicate AmountAt(s: string, p: nat, e: nat) {
    p < e <= |s| && IsAmountText(s[p..e])
  }

  /** No match of the pattern begins anywhere in positions `lo .. hi-1`. */
  ghost predicate NoMatchBetween(s: string, lo: nat, hi: nat) {
    forall p: nat, e: nat :: lo <= p < hi ==> !AmountAt(s, p, e)
  }

  /** A match as `re` reports it: the half-open span `[start, end)` of the text. */
  datatype Span = Span(start: nat, end: nat)

  // ---------------------------------------------------------------------------
  // The scanner
  // ---------------------------------------------------------------------------

  /** Where the greedy `[\d]+` that starts at `i` stops: the end of the digit run. */
  function DigitRunEnd(s: string, i: nat): (j: nat)
    requires i <= |s|
    ensures i <= j <= |s|
    ensures forall k :: i <= k < j ==> IsDigit(s[k])
    ensures j == |s| || !IsDigit(s[j])
    decreases |s| - i
  {
    if i < |s| && IsDigit(s[i]) then DigitRunEnd(s, i + 1) else i
  }

  /**
   * Tries the pattern at position `p`. The digit part of any match at `p` is
   * the whole digit run (a separator is not a digit), so backtracking never
   * finds a second match: the result is the one match at `p`, if any.
   */
  function MatchEnd(s: string, p: nat): (r: Option<nat>)
    requires p <= |s|
    ensures r.Some? ==> AmountAt(s, p, r.value)
    ensures forall e: nat :: AmountAt(s, p, e) ==> r == Some(e)
  {
    if p < |s| && IsDigit(s[p]) then
      var j := DigitRunEnd(s, p);
      if j + 2 < |s| && IsSeparator(s[j]) && IsDigit(s[j + 1]) && IsDigit(s[j + 2]) then
        assert AmountAt(s, p, j + 3) by {
          var t := s[p..j + 3];
          assert forall k :: 0 <= k < |t| - 3 ==> t[k] == s[p + k];
        }
        assert forall e: nat | AmountAt(s, p, e) :: e == j + 3 by {
          forall e: nat | AmountAt(s, p, e) ensures e == j + 3 {
            AmountSeparatorAtRunEnd(s, p, e);
          }
        }
        Some(j + 3)
      else
        NoMatchAfterRun(s, p, j);
        None
    else
      assert forall e: nat :: !AmountAt(s, p, e) by {
        forall e: nat | p < e <= |s| ensures !AmountAt(s, p, e) {
          assert s[p..e][0] == s[p];
        }
      }
      None
  }

  /** A match that starts at `p` has its separator exactly where the digit run from `p` ends. */
  lemma AmountSeparatorAtRunEnd(s: string, p: nat, e: nat)
    requires AmountAt(s, p, e)
    ensures DigitRunEnd(s, p) == e - 3
  {
    var t := s[p..e];
    assert forall k :: p <= k < e - 3 ==> IsDigit(s[k]) by {
      forall k | p <= k < e - 3 ensures IsDigit(s[k]) {
        assert t[..|t| - 3][k - p] == s[k];
      }
    }
    assert s[e - 3] == t[|t| - 3];
  }

  lemma NoMatchAfterRun(s: string, p: nat, j: nat)
    requires p < |s| && IsDigit(s[p]) && j == DigitRunEnd(s, p)
    requires !(j + 2 < |s| && IsSeparator(s[j]) && IsDigit(s[j + 1]) && IsDigit(s[j + 2]))
    ensures forall e: nat :: !AmountAt(s, p, e)
  {
    forall e: nat | p < e <= |s| ensures !AmountAt(s, p, e) {
      if e == j + 3 {
        var t := s[p..e];
        assert t[|t| - 3] == s[j] && t[|t| - 2] == s[j + 1] && t[|t| - 1] == s[j + 2];
      } else if IsAmountText(s[p..e]) {
        AmountSeparatorAtRunEnd(s, p, e);
      }
    }
  }

  /**
   * `re.findall` from position `from`: try the pattern at each position in
   * turn; after a match, resume right after it.
   */
  function Scan(s: string, from: nat): (spans: seq<Span>)
    requires from <= |s|
    ensures forall i :: 0 <= i < |spans| ==>
      from <= spans[i].start && AmountAt(s, spans[i].start, spans[i].end)
    ensures forall i, j :: 0 <= i < j < |spans| ==> spans[i].end <= spans[j].start
    decreases |s| - from
  {
    if from == |s| then []
    else
      match MatchEnd(s, from)
      case Some(e) => [Span(from, e)] + Scan(s, e)
      case None => Scan(s, from + 1)
  }

  // ---------------------------------------------------------------------------
  // What findall promises, stated without the scanner
  // ---------------------------------------------------------------------------

  /**
   * `spans` is what a leftmost, non-overlapping search from `from` reports:
   * the first span is a match, no match starts before it, and the rest is
   * the same search resumed right after the first span.
   */
  ghost predicate FindallFrom(s: string, from: nat, spans: seq<Span>)
    decreases spans
  {
    && from <= |s|
    && (spans == [] ==> NoMatchBetween(s, from, |s|))
    && (spans != [] ==>
          && from <= spans[0].start
          && NoMatchBetween(s, from, spans[0].start)
          && AmountAt(s, spans[0].start, spans[0].end)
          && FindallFrom(s, spans[0].end, spans[1..]))
  }

  /** The scanner reports exactly what the leftmost, non-overlapping search promises. */
  lemma {:induction false} ScanIsFindall(s: string, from: nat)
    requires from <= |s|
    ensures FindallFrom(s, from, Scan(s, from))
    decreases |s| - from
  {
    if from < |s| {
      match MatchEnd(s, from)
      case Some(e) =>
        ScanIsFindall(s, e);
        var spans := Scan(s, from);
        assert spans[0] == Span(from, e) && spans[1..] == Scan(s, e);
      case None =>
        ScanIsFindall(s, from + 1);
        assert NoMatchBetween(s, from, from + 1);
        FindallWiden(s, from, from + 1, Scan(s, from + 1));
    }
  }

  /** At most one span list meets the description: the search is deterministic. */
  lemma {:induction false} FindallUnique(s: string, from: nat, a: seq<Span>, b: seq<Span>)
    requires FindallFrom(s, from, a) && FindallFrom(s, from, b)
    ensures a == b
    decreases a
  {
    assert a == [] <==> b == [];
    if a != [] {
      assert a[0].start == b[0].start;
      var r := MatchEnd(s, a[0].start);
      assert r == Some(a[0].end) && r == Some(b[0].end);
      FindallUnique(s, a[0].end, a[1..], b[1..]);
      assert a == [a[0]] + a[1..] && b == [b[0]] + b[1..];
    }
  }

  /** Both directions: a span list is the scanner's result iff it meets the description. */
  lemma ScanCharacterisation(s: string, spans: seq<Span>)
    ensures FindallFrom(s, 0, spans) <==> spans == Scan(s, 0)
  {
    ScanIsFindall(s, 0);
    if FindallFrom(s, 0, spans) {
      FindallUnique(s, 0, spans, Scan(s, 0));
    }
  }

  // ---------------------------------------------------------------------------
  // Matched texts and their values
  // ---------------------------------------------------------------------------

  /** The list of matched substrings, in order: what `re.findall` returns. */
  function Findall(s: string): (ms: seq<string>)
    ensures |ms| == |Scan(s, 0)|
    ensures forall i :: 0 <= i < |ms| ==>
      IsAmountText(ms[i]) && ms[i] == s[Scan(s, 0)[i].start..Scan(s, 0)[i].end]
  {
    var spans := Scan(s, 0);
    seq(|spans|, i requires 0 <= i < |spans| => s[spans[i].start..spans[i].end])
  }

  function DigitValue(c: char): nat
    requires IsDigit(c)
  {
    c as int - '0' as int
  }

  /** The value of a digit string read in base ten, as `float` reads it. */
  function DigitsValue(ds: string): nat
    requires AllDigits(ds)
  {
    if ds == [] then 0 else DigitsValue(ds[..|ds| - 1]) * 10 + DigitValue(ds[|ds| - 1])
  }

  /**
   * The value of one matched amount in cents: `float(v.replace(",", "."))`,
   * which reads the separator as the decimal point, scaled by 100.
   */
  function AmountCents(t: string): (c: nat)
    requires IsAmountText(t)
    ensures c / 100 == DigitsValue(t[..|t| - 3])
    ensures c % 100 == DigitValue(t[|t| - 2]) * 10 + DigitValue(t[|t| - 1])
  {
    var frac := t[|t| - 2..];
    assert frac[0] == t[|t| - 2] && frac[1] == t[|t| - 1];
    DigitsValueTwo(frac);
    CentsSplit(DigitsValue(t[..|t| - 3]), DigitsValue(frac));
    DigitsValue(t[..|t| - 3]) * 100 + DigitsValue(frac)
  }

  /** Whole units and a two-digit fraction are recovered by division and remainder. */
  lemma CentsSplit(units: nat, frac: nat)
    requires frac < 100
    ensures (units * 100 + frac) / 100 == units && (units * 100 + frac) % 100 == frac
  {
  }

  /**
   * The sum of the values of a list of matched amounts, in list order. No
   * match is dropped: every one of them is at most the sum.
   */
  function SumCents(ms: seq<string>): (total: nat)
    requires forall i :: 0 <= i < |ms| ==> IsAmountText(ms[i])
    ensures ms == [] ==> total == 0
    ensures forall i :: 0 <= i < |ms| ==> AmountCents(ms[i]) <= total
  {
    if ms == [] then 0
    else
      var init := ms[..|ms| - 1];
      assert forall i :: 0 <= i < |init| ==> init[i] == ms[i];
      SumCents(init) + AmountCents(ms[|ms| - 1])
  }

  /**
   * The extra total in cents: `sum(...) if valores else 0.0`. With no match
   * it is exactly zero, and every match counts towards it.
   */
  function ExtraTotalCents(s: string): (total: nat)
    ensures Findall(s) == [] ==> total == 0
    ensures forall i :: 0 <= i < |Findall(s)| ==> AmountCents(Findall(s)[i]) <= total
  {
    var ms := Findall(s);
    if ms == [] then 0 else SumCents(ms)
  }

  /** The extra total as a decimal amount (float rounding is abstracted away). */
  function ExtraTotal(s: string): (total: real)
    ensures total >= 0.0
    ensures total * 100.0 == ExtraTotalCents(s) as real
  {
    ExtraTotalCents(s) as real / 100.0
  }

  // ---------------------------------------------------------------------------
  // Texts joined by a character that cannot belong to an amount
  // ---------------------------------------------------------------------------

  /** A character that is neither a digit nor a separator, such as `;` or a space. */
  predicate IsBreak(c: char) { !IsDigit(c) && !IsSeparator(c) }

  /** Every span moved `k` positions to the right. */
  function Shift(spans: seq<Span>, k: nat): (r: seq<Span>)
    ensures |r| == |spans|
    ensures forall i :: 0 <= i < |r| ==> r[i] == Span(spans[i].start + k, spans[i].end + k)
  {
    seq(|spans|, i requires 0 <= i < |spans| => Span(spans[i].start + k, spans[i].end + k))
  }

  lemma ShiftCons(spans: seq<Span>, k: nat)
    requires spans != []
    ensures Shift(spans, k) == [Span(spans[0].start + k, spans[0].end + k)] + Shift(spans[1..], k)
  {
  }

  lemma SliceOfJoin(a: string, c: char, b: string, p: nat, e: nat)
    requires p <= e
    ensures e <= |a| ==> (a + [c] + b)[p..e] == a[p..e]
    ensures |a| < p && e <= |a| + 1 + |b| ==> (a + [c] + b)[p..e] == b[p - |a| - 1..e - |a| - 1]
  {
  }

  /** A match in `a + [c] + b` lies wholly inside `a` or wholly inside `b`. */
  lemma AmountAtJoin(a: string, c: char, b: string, p: nat, e: nat)
    requires IsBreak(c)
    ensures AmountAt(a + [c] + b, p, e) <==>
      (e <= |a| && AmountAt(a, p, e)) || (|a| < p < e && AmountAt(b, p - |a| - 1, e - |a| - 1))
  {
    var t := a + [c] + b;
    var n := |a|;
    if p < e <= |t| {
      SliceOfJoin(a, c, b, p, e);
      if p <= n < e {
        var u := t[p..e];
        assert u[n - p] == c;
        if n - p < |u| - 3 {
          assert u[..|u| - 3][n - p] == c;
        }
      }
    }
  }

  /** A slice `[p, e)` of `b` reappears in `a + [c] + b` as `[p2, e2)`, moved past `a` and `c`. */
  lemma SliceOfJoinRight(a: string, c: char, b: string, p: nat, e: nat, p2: nat, e2: nat)
    requires p <= e <= |b| && p2 == p + |a| + 1 && e2 == e + |a| + 1
    ensures (a + [c] + b)[p2..e2] == b[p..e]
  {
    var t := a + [c] + b;
    forall i | 0 <= i < e - p ensures t[p2..e2][i] == b[p..e][i] {
      assert t[p2 + i] == b[p + i];
    }
  }

  /** A match in `b` is a match in `a + [c] + b`, moved past `a` and `c`. */
  lemma AmountAtShift(a: string, c: char, b: string, p: nat, e: nat)
    requires AmountAt(b, p, e)
    ensures AmountAt(a + [c] + b, p + |a| + 1, e + |a| + 1)
  {
    SliceOfJoinRight(a, c, b, p, e, p + |a| + 1, e + |a| + 1);
  }

  /** Widening: a search that finds nothing in `[from, m)` reports what the search from `m` does. */
  lemma FindallWiden(s: string, from: nat, m: nat, spans: seq<Span>)
    requires from <= m && NoMatchBetween(s, from, m) && FindallFrom(s, m, spans)
    ensures FindallFrom(s, from, spans)
  {
  }

  /** No match starts in `[lo, hi)` of the joined text when none starts there in `a`. */
  lemma NoMatchJoinLeft(a: string, c: char, b: string, lo: nat, hi: nat)
    requires IsBreak(c) && hi <= |a| && NoMatchBetween(a, lo, hi)
    ensures NoMatchBetween(a + [c] + b, lo, hi)
  {
    forall p: nat, e: nat | lo <= p < hi ensures !AmountAt(a + [c] + b, p, e) {
      AmountAtJoin(a, c, b, p, e);
    }
  }

  /** No match starts at the break character itself. */
  lemma NoMatchAtBreak(a: string, c: char, b: string)
    requires IsBreak(c)
    ensures NoMatchBetween(a + [c] + b, |a|, |a| + 1)
  {
    forall p: nat, e: nat | |a| <= p < |a| + 1 ensures !AmountAt(a + [c] + b, p, e) {
      AmountAtJoin(a, c, b, p, e);
    }
  }

  /** No match starts in the shifted range of the joined text when none starts in `[lo, hi)` of `b`. */
  lemma NoMatchJoinRight(a: string, c: char, b: string, lo: nat, hi: nat)
    requires IsBreak(c) && NoMatchBetween(b, lo, hi)
    ensures NoMatchBetween(a + [c] + b, lo + |a| + 1, hi + |a| + 1)
  {
    forall p: nat, e: nat | lo + |a| + 1 <= p < hi + |a| + 1 ensures !AmountAt(a + [c] + b, p, e) {
      AmountAtJoin(a, c, b, p, e);
    }
  }

  lemma FindallNil(s: string, from: nat)
    requires from <= |s| && NoMatchBetween(s, from, |s|)
    ensures FindallFrom(s, from, [])
  {
  }

  lemma NoMatchUnion(s: string, lo: nat, mid: nat, hi: nat)
    requires lo <= mid && NoMatchBetween(s, lo, mid) && NoMatchBetween(s, mid, hi)
    ensures NoMatchBetween(s, lo, hi)
  {
  }

  lemma {:induction false} FindallShift(a: string, c: char, b: string, q: nat, sb: seq<Span>)
    requires IsBreak(c) && FindallFrom(b, q, sb)
    ensures FindallFrom(a + [c] + b, q + |a| + 1, Shift(sb, |a| + 1))
    decreases sb
  {
    if sb == [] {
      NoMatchJoinRight(a, c, b, q, |b|);
      FindallNil(a + [c] + b, q + |a| + 1);
    } else {
      FindallShift(a, c, b, sb[0].end, sb[1..]);
      FindallShiftStep(a, c, b, q, sb, Shift(sb[1..], |a| + 1));
      ShiftCons(sb, |a| + 1);
    }
  }

  /** One step of FindallShift: the first span of `b`, moved, in front of the moved rest. */
  lemma FindallShiftStep(a: string, c: char, b: string, q: nat, sb: seq<Span>, rest: seq<Span>)
    requires IsBreak(c) && sb != [] && FindallFrom(b, q, sb)
    requires FindallFrom(a + [c] + b, sb[0].end + |a| + 1, rest)
    ensures FindallFrom(a + [c] + b, q + |a| + 1, [Span(sb[0].start + |a| + 1, sb[0].end + |a| + 1)] + rest)
  {
    var first := sb[0];
    assert NoMatchBetween(b, q, first.start) && AmountAt(b, first.start, first.end);
    NoMatchJoinRight(a, c, b, q, first.start);
    AmountAtShift(a, c, b, first.start, first.end);
    var moved := Span(first.start + |a| + 1, first.end + |a| + 1);
    assert ([moved] + rest)[0] == moved && ([moved] + rest)[1..] == rest;
  }

  lemma {:induction false} FindallJoin(a: string, c: char, b: string, from: nat, sa: seq<Span>, sb: seq<Span>)
    requires IsBreak(c) && FindallFrom(a, from, sa) && FindallFrom(b, 0, sb)
    ensures FindallFrom(a + [c] + b, from, sa + Shift(sb, |a| + 1))
    decreases sa
  {
    if sa == [] {
      FindallJoinNil(a, c, b, from, sb);
      assert sa + Shift(sb, |a| + 1) == Shift(sb, |a| + 1);
    } else {
      FindallJoin(a, c, b, sa[0].end, sa[1..], sb);
      FindallJoinStep(a, c, b, from, sa, sb);
    }
  }

  /** FindallJoin when `a` holds no more matches: the search passes the break and goes on in `b`. */
  lemma FindallJoinNil(a: string, c: char, b: string, from: nat, sb: seq<Span>)
    requires IsBreak(c) && FindallFrom(a, from, []) && FindallFrom(b, 0, sb)
    ensures FindallFrom(a + [c] + b, from, Shift(sb, |a| + 1))
  {
    var t, n := a + [c] + b, |a|;
    NoMatchJoinLeft(a, c, b, from, n);
    NoMatchAtBreak(a, c, b);
    NoMatchUnion(t, from, n, n + 1);
    FindallShift(a, c, b, 0, sb);
    FindallWiden(t, from, n + 1, Shift(sb, n + 1));
  }

  /** One step of FindallJoin: the first span of `a`, given the joined rest. */
  lemma FindallJoinStep(a: string, c: char, b: string, from: nat, sa: seq<Span>, sb: seq<Span>)
    requires IsBreak(c) && sa != [] && FindallFrom(a, from, sa)
    requires FindallFrom(a + [c] + b, sa[0].end, sa[1..] + Shift(sb, |a| + 1))
    ensures FindallFrom(a + [c] + b, from, sa + Shift(sb, |a| + 1))
  {
    var first := sa[0];
    assert NoMatchBetween(a, from, first.start) && AmountAt(a, first.start, first.end);
    NoMatchJoinLeft(a, c, b, from, first.start);
    SliceOfJoin(a, c, b, first.start, first.end);
    var joined := sa + Shift(sb, |a| + 1);
    assert joined[0] == first && joined[1..] == sa[1..] + Shift(sb, |a| + 1);
  }

  /** Joining two texts with a break character joins the scanner's spans, the second list shifted. */
  lemma ScanOfJoin(a: string, c: char, b: string)
    requires IsBreak(c)
    ensures Scan(a + [c] + b, 0) == Scan(a, 0) + Shift(Scan(b, 0), |a| + 1)
  {
    ScanIsFindall(a, 0);
    ScanIsFindall(b, 0);
    FindallJoin(a, c, b, 0, Scan(a, 0), Scan(b, 0));
    ScanCharacterisation(a + [c] + b, Scan(a, 0) + Shift(Scan(b, 0), |a| + 1));
  }

  /** Joining two texts with a break character joins their lists of matches. */
  lemma FindallOfJoin(a: string, c: char, b: string)
    requires IsBreak(c)
    ensures Findall(a + [c] + b) == Findall(a) + Findall(b)
  {
    ScanOfJoin(a, c, b);
    var ft, fa, fb := Findall(a + [c] + b), Findall(a), Findall(b);
    assert |fa| == |Scan(a, 0)| && |ft| == |fa| + |fb|;
    forall i | 0 <= i < |fa| ensures ft[i] == fa[i] {
      MatchOfJoinLeft(a, c, b, i);
    }
    forall j | 0 <= j < |fb| ensures ft[|fa| + j] == fb[j] {
      MatchOfJoinRight(a, c, b, j);
    }
    ConcatByIndex(ft, fa, fb);
  }

  /** A sequence that agrees with `x` on its first part and with `y` on the rest is `x + y`. */
  lemma ConcatByIndex<T>(z: seq<T>, x: seq<T>, y: seq<T>)
    requires |z| == |x| + |y|
    requires forall i :: 0 <= i < |x| ==> z[i] == x[i]
    requires forall j :: 0 <= j < |y| ==> z[|x| + j] == y[j]
    ensures z == x + y
  {
    forall k | |x| <= k < |z| ensures z[k] == (x + y)[k] {
      assert z[|x| + (k - |x|)] == y[k - |x|];
    }
  }

  lemma MatchOfJoinLeft(a: string, c: char, b: string, i: nat)
    requires Scan(a + [c] + b, 0) == Scan(a, 0) + Shift(Scan(b, 0), |a| + 1)
    requires i < |Scan(a, 0)|
    ensures Findall(a + [c] + b)[i] == Findall(a)[i]
  {
    var sp := Scan(a, 0)[i];
    assert Scan(a + [c] + b, 0)[i] == sp;
    SliceOfJoin(a, c, b, sp.start, sp.end);
  }

  lemma MatchOfJoinRight(a: string, c: char, b: string, j: nat)
    requires Scan(a + [c] + b, 0) == Scan(a, 0) + Shift(Scan(b, 0), |a| + 1)
    requires j < |Scan(b, 0)|
    ensures Findall(a + [c] + b)[|Scan(a, 0)| + j] == Findall(b)[j]
  {
    var t, n, k := a + [c] + b, |a|, |Scan(a, 0)| + j;
    var sp := Scan(b, 0)[j];
    var moved := Scan(t, 0)[k];
    assert moved == Span(sp.start + n + 1, sp.end + n + 1);
    assert Findall(t)[k] == t[moved.start..moved.end];
    assert Findall(b)[j] == b[sp.start..sp.end];
    SliceOfJoinRight(a, c, b, sp.start, sp.end, moved.start, moved.end);
  }

  lemma {:induction false} SumCentsAppend(x: seq<string>, y: seq<string>)
    requires forall i :: 0 <= i < |x| ==> IsAmountText(x[i])
    requires forall i :: 0 <= i < |y| ==> IsAmountText(y[i])
    ensures SumCents(x + y) == SumCents(x) + SumCents(y)
    decreases |y|
  {
    if y != [] {
      var y' := y[..|y| - 1];
      assert (x + y)[..|x + y| - 1] == x + y';
      SumCentsAppend(x, y');
    } else {
      assert x + y == x;
    }
  }

  /**
   * Items separated by a break character add up: the total of the joined text
   * is the sum of the totals of its parts, whatever words surround the amounts.
   */
  lemma ExtraTotalOfJoin(a: string, c: char, b: string)
    requires IsBreak(c)
    ensures ExtraTotalCents(a + [c] + b) == ExtraTotalCents(a) + ExtraTotalCents(b)
  {
    FindallOfJoin(a, c, b);
    SumCentsAppend(Findall(a), Findall(b));
  }

  /** A text without a digit holds no amount, so its total is zero. */
  lemma NoDigitNoAmount(s: string)
    requires forall k :: 0 <= k < |s| ==> !IsDigit(s[k])
    ensures Findall(s) == [] && ExtraTotalCents(s) == 0
  {
    forall p: nat, e: nat | p < e <= |s| ensures !AmountAt(s, p, e) {
      assert s[p..e][0] == s[p];
    }
    ScanCharacterisation(s, []);
  }

  // ---------------------------------------------------------------------------
  // Round trip with the two-decimal form
  // ---------------------------------------------------------------------------

  function DigitChar(d: nat): (c: char)
    requires d < 10
    ensures IsDigit(c) && DigitValue(c) == d
  {
    ('0' as int + d) as char
  }

  /** The decimal digits of `n`, without leading zeros. */
  function NatDigits(n: nat): (ds: string)
    ensures |ds| >= 1 && AllDigits(ds)
  {
    if n < 10 then [DigitChar(n)] else NatDigits(n / 10) + [DigitChar(n % 10)]
  }

  lemma {:induction false} NatDigitsValue(n: nat)
    ensures DigitsValue(NatDigits(n)) == n
  {
    if n >= 10 {
      var ds := NatDigits(n);
      assert ds[..|ds| - 1] == NatDigits(n / 10);
      NatDigitsValue(n / 10);
    } else {
      assert NatDigits(n)[..0] == [];
    }
  }

  /** An amount of `cents` written with two decimals and the separator `sep`, as in `20,00`. */
  function FormatCents(cents: nat, sep: char): (t: string)
    requires IsSeparator(sep)
    ensures IsAmountText(t)
  {
    var t := NatDigits(cents / 100) + [sep, DigitChar(cents / 10 % 10), DigitChar(cents % 10)];
    assert t[..|t| - 3] == NatDigits(cents / 100);
    t
  }

  /** The two fraction digits of a formatted amount read back as `cents % 100`. */
  lemma FormatCentsValue(cents: nat, sep: char)
    requires IsSeparator(sep)
    ensures AmountCents(FormatCents(cents, sep)) == cents
  {
    var t := FormatCents(cents, sep);
    var n := |t|;
    assert t[..n - 3] == NatDigits(cents / 100);
    NatDigitsValue(cents / 100);
    var frac := t[n - 2..];
    var d1, d0 := cents / 10 % 10, cents % 10;
    assert frac == [DigitChar(d1), DigitChar(d0)];
    DigitsValueTwo(frac);
    LowDigits(cents);
  }

  /** The tens and units digits of `cents` make up `cents % 100`. */
  lemma LowDigits(cents: nat)
    ensures (cents / 10 % 10) * 10 + cents % 10 == cents % 100
  {
    var q, x := cents / 100, cents % 100;
    var t, u := x / 10, x % 10;
    assert cents == (q * 10 + t) * 10 + u;
    assert cents / 10 == q * 10 + t;
    assert cents / 10 % 10 == t;
  }

  /** A text that is one amount and nothing else holds exactly that one match. */
  lemma FindallOfAmount(t: string)
    requires IsAmountText(t)
    ensures Findall(t) == [t]
  {
    assert t[0..|t|] == t;
    assert FindallFrom(t, |t|, []);
    assert FindallFrom(t, 0, [Span(0, |t|)]);
    ScanCharacterisation(t, [Span(0, |t|)]);
  }

  /** A two-decimal amount is found as one match and read back as the same number of cents. */
  lemma FormatCentsRoundTrip(cents: nat, sep: char)
    requires IsSeparator(sep)
    ensures Findall(FormatCents(cents, sep)) == [FormatCents(cents, sep)]
    ensures ExtraTotalCents(FormatCents(cents, sep)) == cents
  {
    var t := FormatCents(cents, sep);
    FindallOfAmount(t);
    FormatCentsValue(cents, sep);
    assert [t][..0] == [];
    assert SumCents([t]) == AmountCents(t);
  }

  // ---------------------------------------------------------------------------
  // Worked examples
  // ---------------------------------------------------------------------------

  /** No thousands grouping: `1.234,56` is matched as `1.23` and then `4,56`. */
  lemma ThousandsGroupingMatches()
    ensures Findall("1.234,56") == ["1.23", "4,56"]
  {
    var s := "1.234,56";
    assert s[0..4] == "1.23" && s[4..8] == "4,56";
    assert FindallFrom(s, 8, []);
    assert FindallFrom(s, 4, [Span(4, 8)]);
    assert FindallFrom(s, 0, [Span(0, 4), Span(4, 8)]);
    ScanCharacterisation(s, [Span(0, 4), Span(4, 8)]);
  }

  /** ... so its total is 1.23 + 4.56, not 1234.56. */
  lemma ThousandsGroupingExample()
    ensures ExtraTotalCents("1.234,56") == 123 + 456
  {
    var ms := Findall("1.234,56");
    ThousandsGroupingMatches();
    SumCentsPair(ms[0], ms[1]);
    AmountExamples();
  }

  lemma DigitsValueOne(ds: string)
    requires |ds| == 1 && AllDigits(ds)
    ensures DigitsValue(ds) == DigitValue(ds[0])
  {
    assert ds[..0] == [];
  }

  lemma DigitsValueTwo(ds: string)
    requires |ds| == 2 && AllDigits(ds)
    ensures DigitsValue(ds) == DigitValue(ds[0]) * 10 + DigitValue(ds[1])
  {
    DigitsValueOne(ds[..1]);
  }

  /** The value of a four-character amount such as `1.23`, digit by digit. */
  lemma AmountOfFour(t: string)
    requires |t| == 4 && IsAmountText(t)
    ensures AmountCents(t) == DigitValue(t[0]) * 100 + DigitValue(t[2]) * 10 + DigitValue(t[3])
  {
    DigitsValueOne(t[..1]);
    DigitsValueTwo(t[2..]);
  }

  /** The value of a five-character amount such as `20,00`, digit by digit. */
  lemma AmountOfFive(t: string)
    requires |t| == 5 && IsAmountText(t)
    ensures AmountCents(t) == DigitValue(t[0]) * 1000 + DigitValue(t[1]) * 100 + DigitValue(t[3]) * 10 + DigitValue(t[4])
  {
    DigitsValueTwo(t[..2]);
    DigitsValueTwo(t[3..]);
  }

  lemma AmountExamples()
    ensures AmountCents("1.23") == 123 && AmountCents("4,56") == 456
  {
    AmountOfFour("1.23");
    AmountOfFour("4,56");
  }

  lemma SumCentsPair(x: string, y: string)
    requires IsAmountText(x) && IsAmountText(y)
    ensures SumCents([x, y]) == AmountCents(x) + AmountCents(y)
  {
    assert [x][..0] == [];
    assert SumCents([x]) == AmountCents(x);
    assert [x, y][..1] == [x];
  }

  /** One amount written after a description without digits: the total is that amount. */
  lemma DescribedItem(description: string, t: string, s: string)
    requires forall k :: 0 <= k < |description| ==> !IsDigit(description[k])
    requires IsAmountText(t)
    requires s == description + " " + t
    ensures ExtraTotalCents(s) == AmountCents(t)
  {
    FindallOfAmount(t);
    assert [t][..0] == [];
    assert SumCents([t]) == AmountCents(t);
    NoDigitNoAmount(description);
    ExtraTotalOfJoin(description, ' ', t);
    assert s == description + [' '] + t;
  }

  lemma LampExample()
    ensures ExtraTotalCents("Lamp R$ 20,00") == 2000
  {
    AmountOfFive("20,00");
    DescribedItem("Lamp R$", "20,00", "Lamp R$ 20,00");
  }

  lemma ValveExample()
    ensures ExtraTotalCents(" Valve R$ 75,60") == 7560
  {
    AmountOfFive("75,60");
    DescribedItem(" Valve R$", "75,60", " Valve R$ 75,60");
  }

  /** `Lamp R$ 20,00; Valve R$ 75,60` totals 95.60. */
  lemma ItemListExample()
    ensures ExtraTotalCents("Lamp R$ 20,00" + ";" + " Valve R$ 75,60") == 9560
  {
    LampExample();
    ValveExample();
    ExtraTotalOfJoin("Lamp R$ 20,00", ';', " Valve R$ 75,60");
  }

  /** A text with no amount in it is not an error: its total is zero. */
  lemma NoAmountExample()
    ensures ExtraTotalCents("no amounts here") == 0
    ensures ExtraTotalCents("") == 0
  {
    NoDigitNoAmount("no amounts here");
    NoDigitNoAmount("");
  }
}
