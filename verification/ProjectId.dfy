/** Project ids in URLs: base64url of an absolute path. */
module ProjectId {
  import opened Prelude
  import opened Utf

  // ---- btoa --------------------------------------------------------------

  predicate InAlphabet(c: char) {
    'A' <= c <= 'Z' || 'a' <= c <= 'z' || '0' <= c <= '9' || c == '+' || c == '/'
  }

  function Sextet(v: nat): (c: char)
    requires v < 64
    ensures InAlphabet(c)
  {
    if v < 26 then ('A' as nat + v) as char
    else if v < 52 then ('a' as nat + v - 26) as char
    else if v < 62 then ('0' as nat + v - 52) as char
    else if v == 62 then '+' else '/'
  }

  function Value(c: char): (v: nat)
    requires InAlphabet(c)
    ensures v < 64
  {
    if 'A' <= c <= 'Z' then c as nat - 'A' as nat
    else if 'a' <= c <= 'z' then c as nat - 'a' as nat + 26
    else if '0' <= c <= '9' then c as nat - '0' as nat + 52
    else if c == '+' then 62 else 63
  }

  lemma ValueOfSextet(v: nat)
    requires v < 64
    ensures Value(Sextet(v)) == v
  {
  }

  /** The four digits of three bytes. */
  function Quad(x: Byte, y: Byte, z: Byte): (s: string)
    ensures |s| == 4 && AllInAlphabet(s)
  {
    [Sextet(x / 4), Sextet(x % 4 * 16 + y / 16), Sextet(y % 16 * 4 + z / 64), Sextet(z % 64)]
  }

  predicate AllInAlphabet(s: string) { forall i :: 0 <= i < |s| ==> InAlphabet(s[i]) }

  /** The base64 digits of `b`, without padding. */
  function Digits64(b: seq<Byte>): (s: string)
    ensures |s| % 4 == if |b| % 3 == 0 then 0 else |b| % 3 + 1
    ensures s == "" <==> b == []
    ensures AllInAlphabet(s)
  {
    if b == [] then ""
    else if |b| == 1 then Quad(b[0], 0, 0)[..2]
    else if |b| == 2 then Quad(b[0], b[1], 0)[..3]
    else
      var rest := Digits64(b[3..]);
      GroupMore(|rest|, |b| - 3);
      Quad(b[0], b[1], b[2]) + rest
  }

  lemma GroupMore(m: nat, n: nat)
    ensures (m + 4) % 4 == m % 4 && (n + 3) % 3 == n % 3
  {
  }

  function Pads(n: nat): (s: string)
    ensures |s| == n && forall i :: 0 <= i < n ==> s[i] == '='
  {
    seq(n, _ => '=')
  }

  /** `btoa` of a binary string. */
  function Btoa(b: seq<Byte>): string { WithPads(Digits64(b), |b|) }

  function WithPads(digits: string, n: nat): string { digits + Pads((3 - n % 3) % 3) }

  // ---- atob --------------------------------------------------------------

  predicate IsAsciiSpace(c: char) { c == ' ' || c == '\t' || c == '\n' || c == 12 as char || c == '\r' }

  function WithoutSpace(s: string): string {
    if s == "" then "" else (if IsAsciiSpace(s[0]) then "" else [s[0]]) + WithoutSpace(s[1..])
  }

  function WithoutPads(s: string): string {
    if |s| % 4 != 0 || |s| == 0 || s[|s| - 1] != '=' then s
    else if s[|s| - 2] == '=' then s[..|s| - 2] else s[..|s| - 1]
  }

  /** The three bytes of four digits. */
  function Triple(s: string): (b: seq<Byte>)
    requires |s| == 4 && AllInAlphabet(s)
    ensures |b| == 3
  {
    [Value(s[0]) * 4 + Value(s[1]) / 16, Value(s[1]) % 16 * 16 + Value(s[2]) / 4, Value(s[2]) % 4 * 64 + Value(s[3])]
  }

  /** The bytes of base64 digits; the bits left over at the end are discarded. */
  function Bytes64(s: string): seq<Byte>
    requires AllInAlphabet(s)
  {
    if |s| < 2 then []
    else if |s| == 2 then Triple(s + "AA")[..1]
    else if |s| == 3 then Triple(s + "A")[..2]
    else Triple(s[..4]) + Bytes64(s[4..])
  }

  /** `atob`, the forgiving base64 decoder; `None` is its InvalidCharacterError. */
  function Atob(data: string): Option<seq<Byte>> {
    var s := WithoutPads(WithoutSpace(data));
    if |s| % 4 == 1 || !AllInAlphabet(s) then None else Some(Bytes64(s))
  }

  /** One group: the four digits give the three bytes back. */
  lemma TripleOfQuad(x: Byte, y: Byte, z: Byte)
    ensures Triple(Quad(x, y, z)) == [x, y, z]
  {
    ValueOfSextet(x / 4);
    ValueOfSextet(x % 4 * 16 + y / 16);
    ValueOfSextet(y % 16 * 4 + z / 64);
    ValueOfSextet(z % 64);
  }

  lemma BytesOfOne(b: seq<Byte>)
    requires |b| == 1
    ensures Bytes64(Digits64(b)) == b
  {
    TripleOfQuad(b[0], 0, 0);
    assert Quad(b[0], 0, 0)[..2] + "AA" == Quad(b[0], 0, 0);
  }

  lemma BytesOfTwo(b: seq<Byte>)
    requires |b| == 2
    ensures Bytes64(Digits64(b)) == b
  {
    TripleOfQuad(b[0], b[1], 0);
    assert Quad(b[0], b[1], 0)[..3] + "A" == Quad(b[0], b[1], 0);
  }

  lemma {:induction false} BytesOfDigits(b: seq<Byte>)
    ensures Bytes64(Digits64(b)) == b
  {
    if |b| == 1 {
      BytesOfOne(b);
    } else if |b| == 2 {
      BytesOfTwo(b);
    } else if |b| >= 3 {
      BytesOfDigits(b[3..]);
      BytesOfMore(b);
    }
  }

  lemma BytesOfMore(b: seq<Byte>)
    requires |b| >= 3 && Bytes64(Digits64(b[3..])) == b[3..]
    ensures Bytes64(Digits64(b)) == b
  {
    DigitsOfMore(b);
    BytesOfQuad(b[0], b[1], b[2], Digits64(b[3..]));
    ThreeFirst(b);
  }

  lemma DigitsOfMore(b: seq<Byte>)
    requires |b| >= 3
    ensures Digits64(b) == Quad(b[0], b[1], b[2]) + Digits64(b[3..])
  {
  }

  lemma BytesOfQuad(x: Byte, y: Byte, z: Byte, rest: string)
    requires AllInAlphabet(rest)
    ensures AllInAlphabet(Quad(x, y, z) + rest) && Bytes64(Quad(x, y, z) + rest) == [x, y, z] + Bytes64(rest)
  {
    TripleOfQuad(x, y, z);
    BytesOfGroup(Quad(x, y, z), rest);
  }

  lemma ThreeFirst(b: seq<Byte>)
    requires |b| >= 3
    ensures b == [b[0], b[1], b[2]] + b[3..]
  {
  }

  lemma BytesOfGroup(q: string, s: string)
    requires |q| == 4 && AllInAlphabet(q) && AllInAlphabet(s)
    ensures AllInAlphabet(q + s) && Bytes64(q + s) == Triple(q) + Bytes64(s)
  {
    assert (q + s)[..4] == q && (q + s)[4..] == s;
  }

  lemma {:induction false} NoSpaceKept(s: string)
    requires forall i :: 0 <= i < |s| ==> !IsAsciiSpace(s[i])
    ensures WithoutSpace(s) == s
  {
    if s != "" { NoSpaceKept(s[1..]); }
  }

  lemma PadArithmetic(m: nat, n: nat)
    requires m % 4 == if n % 3 == 0 then 0 else n % 3 + 1
    ensures (m + (3 - n % 3) % 3) % 4 == 0 && (3 - n % 3) % 3 == (4 - m % 4) % 4
  {
  }

  lemma PadCount(digits: string, n: nat)
    requires |digits| % 4 == if n % 3 == 0 then 0 else n % 3 + 1
    ensures |WithPads(digits, n)| % 4 == 0 && (3 - n % 3) % 3 == (4 - |digits| % 4) % 4
  {
    PadArithmetic(|digits|, n);
  }

  lemma BtoaLength(b: seq<Byte>)
    ensures |Btoa(b)| % 4 == 0 && (3 - |b| % 3) % 3 == (4 - |Digits64(b)| % 4) % 4
  {
    PadCount(Digits64(b), |b|);
  }

  /** `atob` undoes `btoa`. */
  lemma AtobOfBtoa(b: seq<Byte>)
    ensures Atob(Btoa(b)) == Some(b)
  {
    var s, d, n := Btoa(b), Digits64(b), (3 - |b| % 3) % 3;
    NoSpaceKept(s);
    BtoaLength(b);
    if n == 0 {
      assert s == d;
      if |d| > 0 { assert InAlphabet(d[|d| - 1]); }
    } else {
      assert s[|s| - 1] == '=';
      assert |d| > 0 && InAlphabet(d[|d| - 1]);
      assert s[|s| - 2] == if n == 2 then '=' else d[|d| - 1];
      assert s[..|s| - n] == d;
    }
    BytesOfDigits(b);
  }

  // ---- ids ---------------------------------------------------------------

  function UrlChar(c: char): char { if c == '+' then '-' else if c == '/' then '_' else c }

  function PlainChar(c: char): char { if c == '-' then '+' else if c == '_' then '/' else c }

  function MapChars(s: string, f: char -> char): (r: string)
    ensures |r| == |s| && forall i :: 0 <= i < |s| ==> r[i] == f(s[i])
  {
    seq(|s|, i requires 0 <= i < |s| => f(s[i]))
  }

  /** `replace(/=+$/, "")` */
  function WithoutTrailingPads(s: string): string {
    if s != "" && s[|s| - 1] == '=' then WithoutTrailingPads(s[..|s| - 1]) else s
  }

  function ToUrlProjectId(path: seq<Unit>): string {
    WithoutTrailingPads(MapChars(Btoa(Encode(path)), UrlChar))
  }

  predicate IsUrlChar(c: char) {
    'A' <= c <= 'Z' || 'a' <= c <= 'z' || '0' <= c <= '9' || c == '_' || c == '-'
  }

  predicate IsUrlProjectId(s: string) {
    |s| > 0 && forall i :: 0 <= i < |s| ==> IsUrlChar(s[i])
  }

  /** `id` in the plain alphabet, padded to a multiple of four. */
  function Repadded(id: string): string {
    MapChars(id, PlainChar) + Pads((4 - |id| % 4) % 4)
  }

  function FromUrl(id: string): Option<seq<Unit>> {
    match Atob(Repadded(id))
    case None => None
    case Some(bytes) => Some(Decode(bytes))
  }

  method FromUrlProjectId(id: string) returns (path: Option<seq<Unit>>)
    ensures path == FromUrl(id)
  {
    var base64 := PadToFour(MapChars(id, PlainChar));
    var binary := Atob(base64);
    if binary.None? { return None; }
    var bytes := BytesOfBinary(binary.value);
    return Some(Decode(bytes[..]));
  }

  /** Fills a new byte buffer from the decoded binary string. */
  method BytesOfBinary(binary: seq<Byte>) returns (bytes: array<Byte>)
    ensures fresh(bytes) && bytes[..] == binary
  {
    bytes := new Byte[|binary|](_ => 0);
    for i := 0 to |binary|
      invariant bytes[..i] == binary[..i]
    {
      bytes[i] := binary[i];
    }
    assert bytes[..] == bytes[..bytes.Length];
  }

  /** Appends `=` until the length is a multiple of four. */
  method PadToFour(s: string) returns (padded: string)
    ensures padded == s + Pads((4 - |s| % 4) % 4)
  {
    ghost var n := (4 - |s| % 4) % 4;
    padded := s;
    while |padded| % 4 != 0
      invariant |s| <= |padded| <= |s| + n
      invariant padded == s + Pads(|padded| - |s|)
      decreases |s| + n - |padded|
    {
      padded := padded + "=";
    }
    assert |padded| == |s| + n;
  }

  // ---- results -----------------------------------------------------------

  lemma {:induction false} TrailingPadsGo(s: string, n: nat)
    requires s == "" || s[|s| - 1] != '='
    ensures WithoutTrailingPads(s + Pads(n)) == s
  {
    if n == 0 {
      assert s + Pads(0) == s;
    } else {
      assert (s + Pads(n))[..|s| + n - 1] == s + Pads(n - 1);
      TrailingPadsGo(s, n - 1);
    }
  }

  lemma IdIsDigits(path: seq<Unit>)
    ensures ToUrlProjectId(path) == MapChars(Digits64(Encode(path)), UrlChar)
  {
    var b := Encode(path);
    var d, n := Digits64(b), (3 - |b| % 3) % 3;
    assert MapChars(Btoa(b), UrlChar) == MapChars(d, UrlChar) + Pads(n);
    if d != "" { assert MapChars(d, UrlChar)[|d| - 1] == UrlChar(d[|d| - 1]); }
    TrailingPadsGo(MapChars(d, UrlChar), n);
  }

  /** An id uses only the base64url alphabet, its length is never 1 modulo 4, and only the
      empty path has an id that the type guard refuses. */
  lemma IdShape(path: seq<Unit>)
    ensures forall i :: 0 <= i < |ToUrlProjectId(path)| ==> IsUrlChar(ToUrlProjectId(path)[i])
    ensures |ToUrlProjectId(path)| % 4 != 1
    ensures IsUrlProjectId(ToUrlProjectId(path)) <==> path != []
  {
    IdIsDigits(path);
    UnitsOfScalars(path);
    assert Encode(path) == [] <==> path == [];
  }

  /** Padding an id again restores exactly the padding that was removed. */
  lemma PaddingRestored(path: seq<Unit>)
    ensures Repadded(ToUrlProjectId(path)) == Btoa(Encode(path))
  {
    IdIsDigits(path);
    BtoaLength(Encode(path));
    var d := Digits64(Encode(path));
    assert MapChars(MapChars(d, UrlChar), PlainChar) == d;
  }

  /** What a path comes back as, for every string: lone surrogates become U+FFFD and a
      leading byte order mark is lost. */
  lemma FromToUrl(path: seq<Unit>)
    ensures FromUrl(ToUrlProjectId(path)) == Some(Units(WithoutMark(Scalars(path))))
  {
    PaddingRestored(path);
    AtobOfBtoa(Encode(path));
    Utf8RoundTrip(Scalars(path));
  }

  /** The round trip holds exactly for the well-formed strings that do not start with
      U+FEFF. */
  lemma RoundTripExact(path: seq<Unit>)
    ensures FromUrl(ToUrlProjectId(path)) == Some(path) <==> WellFormed(path) && (path == [] || path[0] != BYTE_ORDER_MARK)
  {
    FromToUrl(path);
    UnitsOfScalars(path);
    if path != [] && path[0] == BYTE_ORDER_MARK {
      assert Scalars(path) == [BYTE_ORDER_MARK] + Scalars(path[1..]);
      UnitsOfScalars(path[1..]);
      assert |Units(WithoutMark(Scalars(path)))| == |path| - 1;
    } else if path != [] {
      assert Scalars(path)[0] != BYTE_ORDER_MARK;
    }
  }

  /** The path that comes back, unit by unit: a leading U+FEFF is gone, and a surrogate without
      its other half has become U+FFFD. */
  lemma ComesBackAs(path: seq<Unit>, i: nat)
    ensures FromUrl(ToUrlProjectId(path)).Some?
    ensures var back := FromUrl(ToUrlProjectId(path)).value;
      var start := if path != [] && path[0] == 0xFEFF then 1 else 0;
      && |back| == |path| - start
      && (start <= i < |path| ==>
            back[i - start] == if InPair(path, i) || !(IsHigh(path[i]) || IsLow(path[i])) then path[i] else 0xFFFD)
  {
    FromToUrl(path);
    UnitsOfScalars(path);
    if i < |path| { UnitsPlaceByPlace(path, i); }
    if path != [] {
      if path[0] == BYTE_ORDER_MARK {
        assert Units(Scalars(path)) == [path[0]] + Units(Scalars(path)[1..]);
      } else {
        assert Scalars(path)[0] != BYTE_ORDER_MARK;
      }
    }
  }

  /** An id the type guard accepts is decoded unless its length is 1 modulo 4, which no id made
      from a path has; so the guard accepts texts that decoding refuses. */
  lemma GuardedIdsDecode(id: string)
    requires IsUrlProjectId(id)
    ensures FromUrl(id).Some? <==> |id| % 4 != 1
  {
    var plain, n := MapChars(id, PlainChar), (4 - |id| % 4) % 4;
    PlainDigits(id);
    PaddedDecodes(plain, n);
  }

  lemma PlainDigits(id: string)
    requires IsUrlProjectId(id)
    ensures AllInAlphabet(MapChars(id, PlainChar))
  {
  }

  lemma PaddedDecodes(plain: string, n: nat)
    requires AllInAlphabet(plain) && plain != "" && n == (4 - |plain| % 4) % 4
    ensures Atob(plain + Pads(n)).Some? <==> |plain| % 4 != 1
  {
    PaddedLength(|plain|, n);
    NoSpaceKept(plain + Pads(n));
    RepaddedStripped(plain, n);
  }

  /** Removing at most two padding signs: three of them leave one that is no digit. */
  lemma RepaddedStripped(plain: string, n: nat)
    requires AllInAlphabet(plain) && plain != "" && n == (4 - |plain| % 4) % 4
    ensures n < 3 ==> WithoutPads(plain + Pads(n)) == plain
    ensures n == 3 ==> !AllInAlphabet(WithoutPads(plain + Pads(n)))
  {
    var s := plain + Pads(n);
    PaddedLength(|plain|, n);
    if n == 0 {
      assert s == plain;
      assert InAlphabet(plain[|plain| - 1]);
    } else if n < 3 {
      assert s[|s| - 1] == '=' && InAlphabet(plain[|plain| - 1]);
      assert s[|s| - 2] == if n == 2 then '=' else plain[|plain| - 1];
      assert s[..|s| - n] == plain;
    } else {
      assert s[|s| - 1] == '=' && s[|s| - 2] == '=';
      assert WithoutPads(s)[|plain|] == '=';
    }
  }

  lemma PaddedLength(m: nat, n: nat)
    requires n == (4 - m % 4) % 4
    ensures (m + n) % 4 == 0 && (n == 3 <==> m % 4 == 1)
  {
  }

  /** Two paths share an id exactly when they read as the same scalar values; distinct
      well-formed paths have distinct ids. */
  lemma IdsDistinct(a: seq<Unit>, b: seq<Unit>)
    ensures ToUrlProjectId(a) == ToUrlProjectId(b) <==> Scalars(a) == Scalars(b)
    ensures WellFormed(a) && WellFormed(b) && a != b ==> ToUrlProjectId(a) != ToUrlProjectId(b)
  {
    PaddingRestored(a);
    PaddingRestored(b);
    AtobOfBtoa(Encode(a));
    AtobOfBtoa(Encode(b));
    Utf8RoundTrip(Scalars(a));
    Utf8RoundTrip(Scalars(b));
    UnitsOfScalars(a);
    UnitsOfScalars(b);
  }

  // ---- the digits of an id -----------------------------------------------

  const UPPER := "ABCDEFGHIJKLMNOPQRSTUVWXYZ"
  const LOWER := "abcdefghijklmnopqrstuvwxyz"
  const FIGURES := "0123456789-_"

  /** The base64url alphabet of section 5 of RFC 4648, in the order of its values. */
  const URL_TABLE := UPPER + LOWER + FIGURES

  lemma UpperInOrder(v: nat)
    requires v < 26
    ensures UPPER[v] as int == 'A' as int + v
  {
  }

  lemma LowerInOrder(v: nat)
    requires v < 26
    ensures LOWER[v] as int == 'a' as int + v
  {
  }

  lemma FiguresInOrder(v: nat)
    requires v < 12
    ensures v < 10 ==> FIGURES[v] as int == '0' as int + v
    ensures v == 10 ==> FIGURES[v] == '-'
    ensures v == 11 ==> FIGURES[v] == '_'
  {
  }

  lemma InThree(a: string, b: string, c: string, v: nat)
    requires v < |a| + |b| + |c|
    ensures (a + b + c)[v] == if v < |a| then a[v] else if v < |a| + |b| then b[v - |a|] else c[v - |a| - |b|]
  {
  }

  lemma SextetInTable(v: nat)
    requires v < 64
    ensures UrlChar(Sextet(v)) == URL_TABLE[v]
  {
    InThree(UPPER, LOWER, FIGURES, v);
    if v < 26 {
      UpperInOrder(v);
    } else if v < 52 {
      LowerInOrder(v - 26);
    } else {
      FiguresInOrder(v - 52);
    }
  }

  /** The bytes as one bit string that goes on with zeros. */
  function ByteAt(b: seq<Byte>, k: nat): Byte { if k < |b| then b[k] else 0 }

  /** 2 to the number of bits behind group `i` of six in its two bytes. */
  function Behind(i: nat): nat {
    match 6 * i % 8
    case 0 => 0x400
    case 2 => 0x100
    case 4 => 0x40
    case _ => 0x10
  }

  /** Bits `6i` to `6i + 5` of the bytes. */
  function SixBits(b: seq<Byte>, i: nat): (v: nat)
    ensures v < 64
  {
    (ByteAt(b, 6 * i / 8) * 0x100 + ByteAt(b, 6 * i / 8 + 1)) / Behind(i) % 64
  }

  lemma FirstBits(b: seq<Byte>)
    ensures SixBits(b, 0) == ByteAt(b, 0) / 4
  {
    TopBits(ByteAt(b, 0), ByteAt(b, 1));
  }

  lemma SecondBits(b: seq<Byte>)
    ensures SixBits(b, 1) == ByteAt(b, 0) % 4 * 16 + ByteAt(b, 1) / 16
  {
    UpperBits(ByteAt(b, 0), ByteAt(b, 1));
  }

  lemma ThirdBits(b: seq<Byte>)
    ensures SixBits(b, 2) == ByteAt(b, 1) % 16 * 4 + ByteAt(b, 2) / 64
  {
    LowerBits(ByteAt(b, 1), ByteAt(b, 2));
  }

  lemma FourthBits(b: seq<Byte>)
    ensures SixBits(b, 3) == ByteAt(b, 2) % 64
  {
    BottomBits(ByteAt(b, 2), ByteAt(b, 3));
  }

  lemma QuadBits(b: seq<Byte>, i: nat)
    requires i < 4
    ensures Quad(ByteAt(b, 0), ByteAt(b, 1), ByteAt(b, 2))[i] == Sextet(SixBits(b, i))
  {
    match i
    case 0 => FirstBits(b);
    case 1 => SecondBits(b);
    case 2 => ThirdBits(b);
    case _ => FourthBits(b);
  }

  lemma TopBits(x: Byte, y: Byte)
    ensures (x * 0x100 + y) / 0x400 % 64 == x / 4
  {
  }

  lemma UpperBits(x: Byte, y: Byte)
    ensures (x * 0x100 + y) / 0x10 % 64 == x % 4 * 16 + y / 16
  {
    Remainder64((x * 0x100 + y) / 0x10, x / 4, x % 4 * 16 + y / 16);
  }

  lemma LowerBits(x: Byte, y: Byte)
    ensures (x * 0x100 + y) / 0x40 % 64 == x % 16 * 4 + y / 64
  {
    Remainder64((x * 0x100 + y) / 0x40, x / 16, x % 16 * 4 + y / 64);
  }

  lemma Remainder64(n: nat, high: nat, low: nat)
    requires n == 64 * high + low && low < 64
    ensures n % 64 == low
  {
  }

  lemma BottomBits(x: Byte, y: Byte)
    ensures (x * 0x100 + y) / 0x100 % 64 == x % 64
  {
  }

  lemma SixBitsShift(b: seq<Byte>, i: nat)
    requires |b| >= 3 && i >= 4
    ensures SixBits(b, i) == SixBits(b[3..], i - 4)
  {
    assert 6 * i / 8 == 6 * (i - 4) / 8 + 3 && 6 * i % 8 == 6 * (i - 4) % 8;
  }

  lemma FirstDigitsAreBits(b: seq<Byte>, i: nat)
    requires i < |Digits64(b)| && i < 4
    ensures Digits64(b)[i] == Sextet(SixBits(b, i))
  {
    FirstDigits(b, i);
    QuadBits(b, i);
  }

  lemma LaterDigits(b: seq<Byte>, i: nat)
    requires 4 <= i < |Digits64(b)|
    ensures |b| >= 3 && i - 4 < |Digits64(b[3..])| && Digits64(b)[i] == Digits64(b[3..])[i - 4]
  {
    if |b| >= 3 { DigitsOfMore(b); }
  }

  /** Digit `i` stands for the six bits at its place. */
  lemma {:induction false} DigitsAreBits(b: seq<Byte>, i: nat)
    requires i < |Digits64(b)|
    ensures Digits64(b)[i] == Sextet(SixBits(b, i))
  {
    if i < 4 {
      FirstDigitsAreBits(b, i);
    } else {
      LaterDigits(b, i);
      DigitsAreBits(b[3..], i - 4);
      SixBitsShift(b, i);
    }
  }

  lemma FirstDigits(b: seq<Byte>, i: nat)
    requires i < |Digits64(b)| && i < 4
    ensures Digits64(b)[i] == Quad(ByteAt(b, 0), ByteAt(b, 1), ByteAt(b, 2))[i]
  {
  }

  /** Character `i` of the id of a path is the digit, in the order of the table, for bits `6i` to
      `6i + 5` of the path's UTF-8 bytes. */
  lemma IdSpellsBytes(path: seq<Unit>, i: nat)
    requires i < |ToUrlProjectId(path)|
    ensures ToUrlProjectId(path)[i] == URL_TABLE[SixBits(Encode(path), i)]
  {
    IdIsDigits(path);
    DigitsAreBits(Encode(path), i);
    SextetInTable(SixBits(Encode(path), i));
  }
}
