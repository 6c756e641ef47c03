/** The order in which the version chart lists the server versions. */
module Versions {
  import opened Prelude
  import Doubles

  // ---- reading a version -------------------------------------------------

  /** `a.replace(/^v/, "")` */
  function WithoutV(v: string): string { if v != "" && v[0] == 'v' then v[1..] else v }

  /** `text.split("-")[0]` */
  function BeforeDash(text: string): string {
    if text == "" || text[0] == '-' then "" else [text[0]] + BeforeDash(text[1..])
  }

  /** `text.split(".")` */
  function SplitDots(text: string): (parts: seq<string>)
    ensures parts != []
  {
    if text == "" then [""]
    else
      var rest := SplitDots(text[1..]);
      if text[0] == '.' then [""] + rest else [[text[0]] + rest[0]] + rest[1..]
  }

  function Segments(v: string): seq<string> { SplitDots(BeforeDash(WithoutV(v))) }

  function Digits(text: string): string {
    if text == "" || !IsDigit(text[0]) then "" else [text[0]] + Digits(text[1..])
  }

  /** The double a segment stands for. */
  datatype Numeric = Finite(value: int) | Infinite

  const TWO_242: nat := 0x4_0000_0000_0000_0000_0000_0000_0000_0000_0000_0000_0000_0000_0000_0000_0000

  /** 2^1024 - 2^970: the integers from here on round to infinity. */
  const OVERFLOW: nat := 0xFF_FFFF_FFFF_FFFC * TWO_242 * TWO_242 * TWO_242 * TWO_242

  function ToDouble(n: nat): Numeric { if n >= OVERFLOW then Infinite else Finite(Doubles.Rounded(n)) }

  /** `Number.parseInt(segment, 10) || 0`; a segment holds no minus sign. */
  function ParseInt(segment: string): Numeric {
    if segment != "" && IsSpace(segment[0]) then ParseInt(segment[1..])
    else
      var digits := Digits(if segment != "" && segment[0] == '+' then segment[1..] else segment);
      DigitsAreDigits(if segment != "" && segment[0] == '+' then segment[1..] else segment);
      ToDouble(NumberOf(digits))
  }

  lemma {:induction false} DigitsAreDigits(text: string)
    ensures OnlyDigits(Digits(text))
  {
    if text != "" && IsDigit(text[0]) { DigitsAreDigits(text[1..]); }
  }

  /** `aa[i] ?? "0"`, read as a number. */
  function At(parts: seq<string>, i: nat): Numeric { if i < |parts| then ParseInt(parts[i]) else Finite(0) }

  // ---- the comparator ----------------------------------------------------

  /** The sign the sort makes of `x - y`; infinity minus infinity is not a number and counts as 0. */
  function Difference(x: Numeric, y: Numeric): int {
    if x.Infinite? then (if y.Infinite? then 0 else 1)
    else if y.Infinite? then -1
    else if x.value < y.value then -1
    else if x.value > y.value then 1
    else 0
  }

  /** `diff !== 0`, which also holds when the difference is not a number. */
  predicate Decides(x: Numeric, y: Numeric) { x.Infinite? || x != y }

  /** The order of two lists of numbers from place `i` on, both padded with zeros to length `n`. */
  function Ordering(p: seq<string>, q: seq<string>, i: nat, n: nat, tie: int): int
    requires i <= n
    decreases n - i
  {
    if i == n then tie
    else if Decides(At(p, i), At(q, i)) then Difference(At(p, i), At(q, i))
    else Ordering(p, q, i + 1, n, tie)
  }

  function Max(a: nat, b: nat): nat { if a > b then a else b }

  /** The comparator given to the sort, as a sign. */
  function Comparison(a: string, b: string, locale: (string, string) -> int): int {
    Ordering(Segments(a), Segments(b), 0, Max(|Segments(a)|, |Segments(b)|), locale(a, b))
  }

  method Compare(a: string, b: string, locale: (string, string) -> int) returns (sign: int)
    ensures sign == Comparison(a, b, locale)
  {
    var aa, bb := Segments(a), Segments(b);
    var max := Max(|aa|, |bb|);
    for i := 0 to max
      invariant Comparison(a, b, locale) == Ordering(aa, bb, i, max, locale(a, b))
    {
      if Decides(At(aa, i), At(bb, i)) { return Difference(At(aa, i), At(bb, i)); }
    }
    return locale(a, b);
  }

  // ---- a total preorder --------------------------------------------------

  /** What `localeCompare` promises: swapping the strings flips the sign, and it is transitive. */
  ghost predicate LocaleOrder(locale: (string, string) -> int) {
    && (forall a, b :: locale(a, b) < 0 <==> locale(b, a) > 0)
    && (forall a, b, c :: locale(a, b) <= 0 && locale(b, c) <= 0 ==> locale(a, c) <= 0)
  }

  /** Padding further changes nothing. */
  lemma {:induction false} PaddingIrrelevant(p: seq<string>, q: seq<string>, i: nat, n: nat, m: nat, tie: int)
    requires i <= n <= m && |p| <= n && |q| <= n
    ensures Ordering(p, q, i, n, tie) == Ordering(p, q, i, m, tie)
    decreases m - i
  {
    if i < n {
      PaddingIrrelevant(p, q, i + 1, n, m, tie);
    } else if n < m {
      PaddingIrrelevant(p, q, i + 1, n + 1, m, tie);
    }
  }

  /** The comparator looks at each pair up to its own longer length; any longer common length
      gives the same answer. */
  lemma ComparedAtAnyLength(a: string, b: string, n: nat, locale: (string, string) -> int)
    requires |Segments(a)| <= n && |Segments(b)| <= n
    ensures Comparison(a, b, locale) == Ordering(Segments(a), Segments(b), 0, n, locale(a, b))
  {
    PaddingIrrelevant(Segments(a), Segments(b), 0, Max(|Segments(a)|, |Segments(b)|), n, locale(a, b));
  }

  lemma {:induction false} OrderingFlips(p: seq<string>, q: seq<string>, i: nat, n: nat, tie: int, eit: int)
    requires i <= n && (tie < 0 <==> eit > 0) && (tie > 0 <==> eit < 0)
    ensures Ordering(p, q, i, n, tie) < 0 <==> Ordering(q, p, i, n, eit) > 0
    ensures Ordering(p, q, i, n, tie) > 0 <==> Ordering(q, p, i, n, eit) < 0
    decreases n - i
  {
    if i < n { OrderingFlips(p, q, i + 1, n, tie, eit); }
  }

  lemma {:induction false} OrderingTransitive(p: seq<string>, q: seq<string>, r: seq<string>, i: nat, n: nat,
                                              pq: int, qr: int, pr: int)
    requires i <= n && (pq <= 0 && qr <= 0 ==> pr <= 0)
    requires Ordering(p, q, i, n, pq) <= 0 && Ordering(q, r, i, n, qr) <= 0
    ensures Ordering(p, r, i, n, pr) <= 0
    decreases n - i
  {
    if i < n && !Decides(At(p, i), At(q, i)) && !Decides(At(q, i), At(r, i)) {
      OrderingTransitive(p, q, r, i + 1, n, pq, qr, pr);
    }
  }

  lemma ComparatorFlips(a: string, b: string, locale: (string, string) -> int)
    requires LocaleOrder(locale)
    ensures Comparison(a, b, locale) < 0 <==> Comparison(b, a, locale) > 0
  {
    OrderingFlips(Segments(a), Segments(b), 0, Max(|Segments(a)|, |Segments(b)|), locale(a, b), locale(b, a));
  }

  lemma ComparatorTransitive(a: string, b: string, c: string, locale: (string, string) -> int)
    requires LocaleOrder(locale) && Comparison(a, b, locale) <= 0 && Comparison(b, c, locale) <= 0
    ensures Comparison(a, c, locale) <= 0
  {
    var n := Max(|Segments(a)|, Max(|Segments(b)|, |Segments(c)|));
    ComparedAtAnyLength(a, b, n, locale);
    ComparedAtAnyLength(b, c, n, locale);
    ComparedAtAnyLength(a, c, n, locale);
    OrderingTransitive(Segments(a), Segments(b), Segments(c), 0, n, locale(a, b), locale(b, c), locale(a, c));
  }

  // ---- what the order is -------------------------------------------------

  predicate SameBefore(p: seq<string>, q: seq<string>, i: nat) {
    forall j: nat :: j < i ==> !Decides(At(p, j), At(q, j))
  }

  lemma {:induction false} DecidedAt(p: seq<string>, q: seq<string>, i: nat, k: nat, n: nat, tie: int)
    requires i <= k <= n && SameBefore(p, q, k)
    ensures Ordering(p, q, i, n, tie) == Ordering(p, q, k, n, tie)
    decreases k - i
  {
    if i < k { DecidedAt(p, q, i + 1, k, n, tie); }
  }

  /** The first place, past the end of either if need be, where the numbers differ decides;
      two infinities there decide for equality. */
  lemma FirstDifferenceDecides(a: string, b: string, k: nat, locale: (string, string) -> int)
    requires SameBefore(Segments(a), Segments(b), k) && Decides(At(Segments(a), k), At(Segments(b), k))
    ensures Comparison(a, b, locale) == Difference(At(Segments(a), k), At(Segments(b), k))
  {
    var n := Max(k + 1, Max(|Segments(a)|, |Segments(b)|));
    ComparedAtAnyLength(a, b, n, locale);
    DecidedAt(Segments(a), Segments(b), 0, k, n, locale(a, b));
  }

  /** With equal numbers everywhere the strings decide. */
  lemma StringsBreakTies(a: string, b: string, locale: (string, string) -> int)
    requires forall k :: SameBefore(Segments(a), Segments(b), k)
    ensures Comparison(a, b, locale) == locale(a, b)
  {
    var n := Max(|Segments(a)|, |Segments(b)|);
    DecidedAt(Segments(a), Segments(b), 0, n, n, locale(a, b));
  }

  // ---- which version comes first -----------------------------------------

  /** Both versions have the same finite number at every place before `k`. */
  predicate EqualBefore(a: string, b: string, k: nat) {
    forall j: nat :: j < k ==> At(Segments(a), j).Finite? && At(Segments(a), j) == At(Segments(b), j)
  }

  predicate NumberLess(x: Numeric, y: Numeric) {
    x.Finite? && (y.Infinite? || x.value < y.value)
  }

  /** At the first place where the numbers differ the smaller number comes first. */
  lemma SmallerFirst(a: string, b: string, k: nat, locale: (string, string) -> int)
    requires EqualBefore(a, b, k) && NumberLess(At(Segments(a), k), At(Segments(b), k))
    ensures Comparison(a, b, locale) < 0 && Comparison(b, a, locale) > 0
  {
    FirstDifferenceDecides(a, b, k, locale);
    FirstDifferenceDecides(b, a, k, locale);
  }

  // ---- how a version is read ---------------------------------------------

  function Dotted(ns: seq<nat>): string
    requires ns != []
  {
    if |ns| == 1 then Decimal(ns[0]) else Decimal(ns[0]) + ("." + Dotted(ns[1..]))
  }

  function Decimals(ns: seq<nat>): seq<string> {
    if ns == [] then [] else [Decimal(ns[0])] + Decimals(ns[1..])
  }

  lemma {:induction false} SplitDotsFirst(part: string, rest: string)
    requires '.' !in part
    ensures SplitDots(part) == [part]
    ensures SplitDots(part + ("." + rest)) == [part] + SplitDots(rest)
  {
    if part == "" {
      assert part + ("." + rest) == "." + rest && ("." + rest)[1..] == rest;
    } else {
      SplitDotsFirst(part[1..], rest);
      assert (part + ("." + rest))[1..] == part[1..] + ("." + rest);
      assert [part[0]] + part[1..] == part;
    }
  }

  lemma {:induction false} DottedSplits(ns: seq<nat>)
    requires ns != []
    ensures SplitDots(Dotted(ns)) == Decimals(ns)
    ensures '-' !in Dotted(ns) && Dotted(ns) != "" && IsDigit(Dotted(ns)[0])
  {
    var first := Decimal(ns[0]);
    assert IsDigit(first[0]);
    if |ns| == 1 {
      SplitDotsFirst(first, "");
      assert Decimals(ns) == [first];
    } else {
      DottedSplits(ns[1..]);
      SplitDotsFirst(first, Dotted(ns[1..]));
    }
  }

  lemma {:induction false} DashEnds(text: string, tail: string)
    requires '-' !in text && (tail == "" || tail[0] == '-')
    ensures BeforeDash(text + tail) == text
  {
    if text == "" {
      assert text + tail == tail;
    } else {
      assert (text + tail)[1..] == text[1..] + tail;
      DashEnds(text[1..], tail);
      assert [text[0]] + text[1..] == text;
    }
  }

  /** Numbers with dots between them, with or without a leading `v`, and whatever follows a dash
      left aside, are read as these numbers. */
  lemma VersionReads(ns: seq<nat>, tail: string)
    requires ns != [] && (tail == "" || tail[0] == '-')
    ensures Segments(Dotted(ns) + tail) == Decimals(ns)
    ensures Segments("v" + (Dotted(ns) + tail)) == Decimals(ns)
  {
    DottedSplits(ns);
    DashEnds(Dotted(ns), tail);
    assert (Dotted(ns) + tail)[0] == Dotted(ns)[0];
    assert ("v" + (Dotted(ns) + tail))[1..] == Dotted(ns) + tail;
  }

  lemma {:induction false} DigitsEnd(digits: string, junk: string)
    requires OnlyDigits(digits) && (junk == "" || !IsDigit(junk[0]))
    ensures Digits(digits + junk) == digits
  {
    if digits == "" {
      assert digits + junk == junk;
    } else {
      assert IsDigit(digits[0]);
      assert (digits + junk)[1..] == digits[1..] + junk;
      DigitsEnd(digits[1..], junk);
      assert [digits[0]] + digits[1..] == digits;
    }
  }

  lemma SafeIsFinite(n: nat)
    requires n < Doubles.TWO_53
    ensures ToDouble(n) == Finite(n)
  {
    Doubles.RoundedExact(n);
    assert TWO_242 >= 1 && OVERFLOW >= 0xFF_FFFF_FFFF_FFFC;
  }

  /** Decimal digits are read as their number, whatever follows them; a segment that starts with
      no digit is read as zero. */
  lemma SegmentReads(n: nat, junk: string)
    requires junk == "" || !IsDigit(junk[0])
    ensures n < Doubles.TWO_53 ==> ParseInt(Decimal(n) + junk) == Finite(n)
    ensures junk == "" || !(IsSpace(junk[0]) || junk[0] == '+') ==> ParseInt(junk) == Finite(0)
  {
    var s := Decimal(n) + junk;
    assert s[0] == Decimal(n)[0] && IsDigit(s[0]);
    DigitsEnd(Decimal(n), junk);
    NumberOfDecimal(n);
    if n < Doubles.TWO_53 { SafeIsFinite(n); }
    SafeIsFinite(0);
  }

  lemma {:induction false} DecimalsAt(ns: seq<nat>, i: nat)
    ensures |Decimals(ns)| == |ns|
    ensures i < |ns| ==> Decimals(ns)[i] == Decimal(ns[i])
  {
    if ns != [] { DecimalsAt(ns[1..], if i == 0 then 0 else i - 1); }
  }

  /** The number at place `i` of such a version, zero past its end. */
  lemma NumbersRead(ns: seq<nat>, tail: string, i: nat)
    requires ns != [] && (tail == "" || tail[0] == '-') && forall j :: 0 <= j < |ns| ==> ns[j] < Doubles.TWO_53
    ensures At(Segments(Dotted(ns) + tail), i) == Finite(if i < |ns| then ns[i] else 0)
  {
    VersionReads(ns, tail);
    DecimalsAt(ns, i);
    if i < |ns| {
      SegmentReads(ns[i], "");
      assert Decimal(ns[i]) + "" == Decimal(ns[i]);
    }
  }

  // ---- sorting -----------------------------------------------------------

  predicate Sorted(vs: seq<string>, locale: (string, string) -> int) {
    forall i, j :: 0 <= i < j < |vs| ==> Comparison(vs[i], vs[j], locale) <= 0
  }

  function Insert(v: string, vs: seq<string>, locale: (string, string) -> int): seq<string> {
    if vs == [] || Comparison(v, vs[0], locale) <= 0 then [v] + vs else [vs[0]] + Insert(v, vs[1..], locale)
  }

  /** `[...versions].sort(compare)`; equal versions keep their order. */
  function SortVersions(versions: seq<string>, locale: (string, string) -> int): seq<string> {
    if versions == [] then [] else Insert(versions[0], SortVersions(versions[1..], locale), locale)
  }

  lemma HeadAndTail(vs: seq<string>)
    requires vs != []
    ensures vs == [vs[0]] + vs[1..] && multiset(vs) == multiset(vs[1..]) + multiset{vs[0]}
  {
    assert vs == [vs[0]] + vs[1..];
  }

  lemma {:induction false} InsertKeeps(v: string, vs: seq<string>, locale: (string, string) -> int)
    ensures multiset(Insert(v, vs, locale)) == multiset(vs) + multiset{v}
  {
    if vs != [] && Comparison(v, vs[0], locale) > 0 {
      InsertKeeps(v, vs[1..], locale);
      HeadAndTail(vs);
    }
  }

  /** A version below the head of a sorted list is below all of it. */
  lemma BelowHead(v: string, vs: seq<string>, locale: (string, string) -> int)
    requires LocaleOrder(locale) && Sorted(vs, locale) && vs != [] && Comparison(v, vs[0], locale) <= 0
    ensures Sorted([v] + vs, locale)
  {
    forall j | 0 <= j < |vs| ensures Comparison(v, vs[j], locale) <= 0 {
      if j > 0 { ComparatorTransitive(v, vs[0], vs[j], locale); }
    }
  }

  lemma HeadStaysLeast(v: string, vs: seq<string>, rest: seq<string>, locale: (string, string) -> int)
    requires vs != [] && Sorted(vs, locale) && Comparison(vs[0], v, locale) <= 0
    requires Sorted(rest, locale) && multiset(rest) == multiset(vs[1..]) + multiset{v}
    ensures Sorted([vs[0]] + rest, locale)
  {
    forall j | 0 <= j < |rest| ensures Comparison(vs[0], rest[j], locale) <= 0 {
      assert rest[j] in multiset(rest);
      if rest[j] != v { assert rest[j] in vs[1..]; }
    }
  }

  lemma {:induction false} InsertSorts(v: string, vs: seq<string>, locale: (string, string) -> int)
    requires LocaleOrder(locale) && Sorted(vs, locale)
    ensures Sorted(Insert(v, vs, locale), locale)
  {
    if vs == [] {
    } else if Comparison(v, vs[0], locale) <= 0 {
      BelowHead(v, vs, locale);
    } else {
      InsertSorts(v, vs[1..], locale);
      InsertKeeps(v, vs[1..], locale);
      ComparatorFlips(vs[0], v, locale);
      HeadStaysLeast(v, vs, Insert(v, vs[1..], locale), locale);
    }
  }

  lemma {:induction false} SortVersionsSorts(versions: seq<string>, locale: (string, string) -> int)
    requires LocaleOrder(locale)
    ensures Sorted(SortVersions(versions, locale), locale)
    ensures multiset(SortVersions(versions, locale)) == multiset(versions)
  {
    if versions != [] {
      SortVersionsSorts(versions[1..], locale);
      InsertSorts(versions[0], SortVersions(versions[1..], locale), locale);
      InsertKeeps(versions[0], SortVersions(versions[1..], locale), locale);
      HeadAndTail(versions);
    }
  }

  /** Any two sorted arrangements agree place by place up to equality under the comparator: the
      chart's order does not depend on the sorting algorithm or on the order of its input. */
  lemma SortedUnique(a: seq<string>, b: seq<string>, locale: (string, string) -> int, k: nat)
    requires LocaleOrder(locale) && Sorted(a, locale) && Sorted(b, locale) && multiset(a) == multiset(b) && k < |a|
    ensures |a| == |b| && Comparison(a[k], b[k], locale) == 0
  {
    assert |multiset(a)| == |a| && |multiset(b)| == |b|;
    SortedBelow(a, b, locale, k);
    SortedBelow(b, a, locale, k);
    ComparatorFlips(a[k], b[k], locale);
  }

  lemma ComparatorReflexive(a: string, locale: (string, string) -> int)
    requires LocaleOrder(locale)
    ensures Comparison(a, a, locale) == 0
  {
    ComparatorFlips(a, a, locale);
  }

  /** Some element of `a[..k + 1]` is found at or behind place `k` of `b`. */
  lemma SortedBelow(a: seq<string>, b: seq<string>, locale: (string, string) -> int, k: nat)
    requires LocaleOrder(locale) && Sorted(a, locale) && Sorted(b, locale) && multiset(a) == multiset(b)
    requires |a| == |b| && k < |a|
    ensures Comparison(b[k], a[k], locale) <= 0
  {
    var i, j := Overlap(a, b, k);
    ComparatorReflexive(a[k], locale);
    ComparatorReflexive(b[k], locale);
    assert Comparison(a[i], a[k], locale) <= 0;
    assert Comparison(b[k], b[j], locale) <= 0;
    ComparatorTransitive(b[k], b[j], a[k], locale);
  }

  lemma Overlap(a: seq<string>, b: seq<string>, k: nat) returns (i: nat, j: nat)
    requires multiset(a) == multiset(b) && |a| == |b| && k < |a|
    ensures i <= k <= j < |b| && a[i] == b[j]
  {
    assert a == a[..k + 1] + a[k + 1..] && b == b[..k] + b[k..];
    var x := Pigeonhole(multiset(a[..k + 1]), multiset(a[k + 1..]), multiset(b[..k]), multiset(b[k..]));
    assert x in a[..k + 1] && x in b[k..];
    i :| 0 <= i <= k && a[i] == x;
    var d: nat :| d < |b[k..]| && b[k..][d] == x;
    j := k + d;
  }

  lemma Pigeonhole(front: multiset<string>, tail: multiset<string>, small: multiset<string>, back: multiset<string>)
    returns (x: string)
    requires front + tail == small + back && |front| > |small|
    ensures x in front && x in back
  {
    if front !! back {
      forall y | y in front ensures front[y] <= small[y] {
        assert y !in back;
        assert (front + tail)[y] == (small + back)[y];
      }
      MultisetSize(front, small);
    }
    x :| x in front && x in back;
  }

  lemma MultisetSize(x: multiset<string>, y: multiset<string>)
    requires x <= y
    ensures |x| <= |y|
  {
    assert y == x + (y - x);
  }

  /** In the sorted list no version has, at the first place where they differ, a larger number
      than one behind it; where all numbers agree the strings are in order. */
  lemma SortedAscends(versions: seq<string>, locale: (string, string) -> int, i: nat, j: nat, k: nat)
    requires LocaleOrder(locale) && i < j < |SortVersions(versions, locale)|
    ensures var vs := SortVersions(versions, locale);
      !(EqualBefore(vs[j], vs[i], k) && NumberLess(At(Segments(vs[j]), k), At(Segments(vs[i]), k)))
    ensures var vs := SortVersions(versions, locale);
      (forall n: nat :: EqualBefore(vs[i], vs[j], n)) ==> locale(vs[i], vs[j]) <= 0
  {
    SortVersionsSorts(versions, locale);
    var a, b := SortVersions(versions, locale)[i], SortVersions(versions, locale)[j];
    if EqualBefore(b, a, k) && NumberLess(At(Segments(b), k), At(Segments(a), k)) { SmallerFirst(b, a, k, locale); }
    if forall n: nat :: EqualBefore(a, b, n) {
      forall n: nat ensures SameBefore(Segments(a), Segments(b), n) { assert EqualBefore(a, b, n); }
      StringsBreakTies(a, b, locale);
    }
  }
}
