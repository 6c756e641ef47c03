/** UTF-16 strings, UTF-8 bytes, and the platform's encoder and decoder between them. */
module Utf {
  import opened Prelude

  /** A UTF-16 code unit. */
  type Unit = x: int | 0 <= x < 0x1_0000

  predicate IsScalar(x: int) { 0 <= x < 0xD800 || 0xE000 <= x <= 0x10_FFFF }

  /** A Unicode scalar value. */
  type Scalar = x: int | 0 <= x < 0xD800 || 0xE000 <= x <= 0x10_FFFF

  const REPLACEMENT: Scalar := 0xFFFD
  const BYTE_ORDER_MARK: Scalar := 0xFEFF

  predicate IsHigh(u: Unit) { 0xD800 <= u < 0xDC00 }

  predicate IsLow(u: Unit) { 0xDC00 <= u < 0xE000 }

  predicate StartsWithPair(s: seq<Unit>) { |s| >= 2 && IsHigh(s[0]) && IsLow(s[1]) }

  function PairValue(high: Unit, low: Unit): Scalar
    requires IsHigh(high) && IsLow(low)
  {
    0x1_0000 + (high - 0xD800) * 0x400 + (low - 0xDC00)
  }

  /** The scalar values of a string; a lone surrogate becomes U+FFFD. */
  function Scalars(s: seq<Unit>): seq<Scalar> {
    if s == [] then []
    else if StartsWithPair(s) then [PairValue(s[0], s[1])] + Scalars(s[2..])
    else [if IsScalar(s[0]) then s[0] else REPLACEMENT] + Scalars(s[1..])
  }

  /** No lone surrogates. */
  predicate WellFormed(s: seq<Unit>) {
    s == [] || (if StartsWithPair(s) then WellFormed(s[2..]) else IsScalar(s[0]) && WellFormed(s[1..]))
  }

  function UnitsOf(c: Scalar): seq<Unit> {
    if c < 0x1_0000 then [c] else [0xD800 + (c - 0x1_0000) / 0x400, 0xDC00 + (c - 0x1_0000) % 0x400]
  }

  function Units(cs: seq<Scalar>): seq<Unit> {
    if cs == [] then [] else UnitsOf(cs[0]) + Units(cs[1..])
  }

  lemma {:induction false} ScalarsOfUnits(cs: seq<Scalar>)
    ensures Scalars(Units(cs)) == cs && WellFormed(Units(cs))
  {
    if cs != [] {
      ScalarsOfUnits(cs[1..]);
      FirstScalar(cs[0], Units(cs[1..]));
    }
  }

  lemma FirstScalar(c: Scalar, rest: seq<Unit>)
    ensures Scalars(UnitsOf(c) + rest) == [c] + Scalars(rest)
    ensures WellFormed(UnitsOf(c) + rest) == WellFormed(rest)
  {
    var s := UnitsOf(c) + rest;
    assert s[|UnitsOf(c)|..] == rest;
    if |UnitsOf(c)| == 2 {
      assert s[0] == UnitsOf(c)[0] && s[1] == UnitsOf(c)[1];
    } else {
      assert s[0] == c;
    }
  }

  /** Reading a string as scalar values and writing it again keeps its length, and gives the
      string back exactly when it has no lone surrogate. */
  lemma {:induction false} UnitsOfScalars(s: seq<Unit>)
    ensures |Units(Scalars(s))| == |s|
    ensures Units(Scalars(s)) == s <==> WellFormed(s)
  {
    ScalarsOfUnits(Scalars(s));
    if s != [] {
      var n := if StartsWithPair(s) then 2 else 1;
      UnitsOfScalars(s[n..]);
      assert Scalars(s)[1..] == Scalars(s[n..]);
      assert s == s[..n] + s[n..];
      if WellFormed(s) { assert UnitsOf(Scalars(s)[0]) == s[..n]; }
    }
  }

  function Utf8Of(c: Scalar): seq<Byte> {
    if c < 0x80 then [c]
    else if c < 0x800 then [0xC0 + c / 0x40, 0x80 + c % 0x40]
    else if c < 0x1_0000 then [0xE0 + c / 0x1000, 0x80 + c / 0x40 % 0x40, 0x80 + c % 0x40]
    else [0xF0 + c / 0x4_0000, 0x80 + c / 0x1000 % 0x40, 0x80 + c / 0x40 % 0x40, 0x80 + c % 0x40]
  }

  function Utf8(cs: seq<Scalar>): seq<Byte> {
    if cs == [] then [] else Utf8Of(cs[0]) + Utf8(cs[1..])
  }

  /** `new TextEncoder().encode(s)` */
  function Encode(s: seq<Unit>): seq<Byte> { Utf8(Scalars(s)) }

  /** The decoder between two bytes: the bits read so far, how many bytes are still needed,
      and the range the next one must be in. */
  datatype State = State(bits: nat, needed: nat, lower: Byte, upper: Byte)

  const READY := State(0, 0, 0x80, 0xBF)

  function Least(d: State): int
    requires d.needed <= 3
  {
    var first := d.bits * 0x40 + d.lower - 0x80;
    if d.needed <= 1 then first else if d.needed == 2 then first * 0x40 else first * 0x1000
  }

  function Greatest(d: State): int
    requires d.needed <= 3
  {
    var first := d.bits * 0x40 + d.upper - 0x80;
    if d.needed <= 1 then first else if d.needed == 2 then first * 0x40 + 0x3F else first * 0x1000 + 0xFFF
  }

  /** Whatever is read next in range, the result is a scalar value. */
  predicate Sound(d: State) {
    && d.needed <= 3
    && (d.needed == 0 ==> d == READY)
    && (d.needed > 0 ==> 0x80 <= d.lower <= d.upper <= 0xBF)
    && (d.needed > 0 ==> 0 <= Least(d) && Greatest(d) <= 0x10_FFFF && (Greatest(d) < 0xD800 || 0xE000 <= Least(d)))
  }

  predicate IsLead(b: Byte) { 0xC2 <= b <= 0xF4 }

  function Lead(b: Byte): (d: State)
    requires IsLead(b)
    ensures Sound(d) && d.needed > 0
  {
    if b <= 0xDF then State(b - 0xC0, 1, 0x80, 0xBF)
    else if b <= 0xEF then State(b - 0xE0, 2, if b == 0xE0 then 0xA0 else 0x80, if b == 0xED then 0x9F else 0xBF)
    else State(b - 0xF0, 3, if b == 0xF0 then 0x90 else 0x80, if b == 0xF4 then 0x8F else 0xBF)
  }

  function Continue(d: State, b: Byte): (e: State)
    requires Sound(d) && d.needed > 1 && d.lower <= b <= d.upper
    ensures Sound(e) && e.needed == d.needed - 1
  {
    State(d.bits * 0x40 + b - 0x80, d.needed - 1, 0x80, 0xBF)
  }

  /** The WHATWG UTF-8 decoder with replacement. */
  function DecodeFrom(bytes: seq<Byte>, d: State): seq<Scalar>
    requires Sound(d)
    decreases |bytes|, d.needed
  {
    if bytes == [] then (if d.needed > 0 then [REPLACEMENT] else [])
    else
      var b := bytes[0];
      if d.needed == 0 then
        if b < 0x80 then [b] + DecodeFrom(bytes[1..], READY)
        else if IsLead(b) then DecodeFrom(bytes[1..], Lead(b))
        else [REPLACEMENT] + DecodeFrom(bytes[1..], READY)
      else if !(d.lower <= b <= d.upper) then [REPLACEMENT] + DecodeFrom(bytes, READY)
      else if d.needed == 1 then [(d.bits * 0x40 + b - 0x80) as Scalar] + DecodeFrom(bytes[1..], READY)
      else DecodeFrom(bytes[1..], Continue(d, b))
  }

  /** `new TextDecoder().decode(bytes)`: a leading byte order mark is dropped. */
  function Decode(bytes: seq<Byte>): seq<Unit> { Units(WithoutMark(DecodeFrom(bytes, READY))) }

  function WithoutMark(cs: seq<Scalar>): seq<Scalar> {
    if cs != [] && cs[0] == BYTE_ORDER_MARK then cs[1..] else cs
  }

  lemma DecodesLast(c: Scalar, d: State, rest: seq<Byte>)
    requires Sound(d) && d == State(c / 0x40, 1, 0x80, 0xBF)
    ensures DecodeFrom([0x80 + c % 0x40] + rest, d) == [c] + DecodeFrom(rest, READY)
  {
    assert ([0x80 + c % 0x40] + rest)[1..] == rest;
  }

  lemma DecodesLastTwo(c: Scalar, d: State, rest: seq<Byte>)
    requires Sound(d) && d.bits == c / 0x1000 && d.needed == 2 && d.lower <= 0x80 + c / 0x40 % 0x40 <= d.upper
    ensures DecodeFrom([0x80 + c / 0x40 % 0x40] + ([0x80 + c % 0x40] + rest), d) == [c] + DecodeFrom(rest, READY)
  {
    var one := [0x80 + c % 0x40] + rest;
    var bytes := [0x80 + c / 0x40 % 0x40] + one;
    assert bytes[1..] == one;
    assert c / 0x1000 * 0x40 + c / 0x40 % 0x40 == c / 0x40;
    DecodesLast(c, Continue(d, bytes[0]), rest);
  }

  lemma DecodesOne(c: Scalar, rest: seq<Byte>)
    ensures DecodeFrom(Utf8Of(c) + rest, READY) == [c] + DecodeFrom(rest, READY)
  {
    var bytes := Utf8Of(c) + rest;
    if c < 0x80 {
      assert bytes[1..] == rest;
    } else if c < 0x800 {
      assert bytes[1..] == [0x80 + c % 0x40] + rest;
      DecodesLast(c, Lead(bytes[0]), rest);
    } else if c < 0x1_0000 {
      assert bytes[1..] == [0x80 + c / 0x40 % 0x40] + ([0x80 + c % 0x40] + rest);
      DecodesLastTwo(c, Lead(bytes[0]), rest);
    } else {
      DecodesFour(c, rest);
    }
  }

  lemma DecodesFour(c: Scalar, rest: seq<Byte>)
    requires 0x1_0000 <= c
    ensures DecodeFrom(Utf8Of(c) + rest, READY) == [c] + DecodeFrom(rest, READY)
  {
    var two := [0x80 + c / 0x40 % 0x40] + ([0x80 + c % 0x40] + rest);
    var three := [0x80 + c / 0x1000 % 0x40] + two;
    var bytes := [0xF0 + c / 0x4_0000] + three;
    assert bytes == Utf8Of(c) + rest;
    var d := Lead(bytes[0]);
    assert bytes[1..] == three && three[1..] == two;
    assert c / 0x4_0000 * 0x40 + c / 0x1000 % 0x40 == c / 0x1000;
    DecodesLastTwo(c, Continue(d, three[0]), rest);
  }

  /** Decoding encoded scalar values gives them back. */
  lemma {:induction false} Utf8RoundTrip(cs: seq<Scalar>)
    ensures DecodeFrom(Utf8(cs), READY) == cs
  {
    if cs != [] {
      Utf8RoundTrip(cs[1..]);
      DecodesOne(cs[0], Utf8(cs[1..]));
    }
  }

  // ---- lone surrogates, by their places ----------------------------------

  predicate InPair(s: seq<Unit>, i: nat)
    requires i < |s|
  {
    (IsHigh(s[i]) && i + 1 < |s| && IsLow(s[i + 1])) || (IsLow(s[i]) && i > 0 && IsHigh(s[i - 1]))
  }

  /** Reading a string as scalar values and writing it again keeps every unit but a surrogate
      without its other half, which becomes U+FFFD. */
  lemma {:induction false} UnitsPlaceByPlace(s: seq<Unit>, i: nat)
    requires i < |s|
    ensures |Units(Scalars(s))| == |s|
    ensures Units(Scalars(s))[i] ==
      if InPair(s, i) || !(IsHigh(s[i]) || IsLow(s[i])) then s[i] else 0xFFFD
  {
    var n := if StartsWithPair(s) then 2 else 1;
    UnitsOfScalars(s);
    UnitsOfScalars(s[n..]);
    assert Scalars(s)[1..] == Scalars(s[n..]);
    assert Units(Scalars(s)) == UnitsOf(Scalars(s)[0]) + Units(Scalars(s[n..]));
    if i >= n { UnitsPlaceByPlace(s[n..], i - n); }
  }

  // ---- the encodings, by their values ------------------------------------

  predicate IsTail(b: Byte) { 0x80 <= b <= 0xBF }

  /** The bits a byte or unit carries when its mark is taken off. */
  function Without(b: nat, mark: nat): int { b - mark }

  /** The bytes of a scalar value as the table of section 3 of RFC 3629 gives them: the length by
      its range, the lead byte's mark, and the value in the bits that are left. */
  lemma Utf8Values(c: Scalar)
    ensures var s := Utf8Of(c);
      && (forall i :: 0 < i < |s| ==> IsTail(s[i]))
      && (c < 0x80 ==> s == [c])
      && (0x80 <= c < 0x800 ==>
            |s| == 2 && 0xC0 <= s[0] < 0xE0 && c == Without(s[0], 0xC0) * 0x40 + Without(s[1], 0x80))
      && (0x800 <= c < 0x1_0000 ==>
            && |s| == 3 && 0xE0 <= s[0] < 0xF0
            && c == (Without(s[0], 0xE0) * 0x40 + Without(s[1], 0x80)) * 0x40 + Without(s[2], 0x80))
      && (0x1_0000 <= c ==>
            && |s| == 4 && 0xF0 <= s[0] < 0xF8
            && c == ((Without(s[0], 0xF0) * 0x40 + Without(s[1], 0x80)) * 0x40 + Without(s[2], 0x80)) * 0x40
                    + Without(s[3], 0x80))
  {
    assert c / 0x1000 == c / 0x40 / 0x40;
    assert c / 0x4_0000 == c / 0x1000 / 0x40;
  }

  /** Beyond the first plane a scalar value is a high and a low surrogate with ten bits each. */
  lemma SurrogateValues(c: Scalar)
    ensures c < 0x1_0000 ==> UnitsOf(c) == [c]
    ensures c >= 0x1_0000 ==>
      var s := UnitsOf(c);
      |s| == 2 && IsHigh(s[0]) && IsLow(s[1]) && c - 0x1_0000 == Without(s[0], 0xD800) * 0x400 + Without(s[1], 0xDC00)
  {
  }
}
