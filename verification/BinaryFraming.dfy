/** Binary frames, encrypted envelopes and upload chunks on the wire. */
module BinaryFraming {
  import opened Prelude
  import opened Doubles

  type Bytes = seq<Byte>

  datatype FrameError =
    | UnknownFormat | UnknownVersion | InvalidLength | InvalidFormat | InvalidUuid | InvalidOffset

  const JSON: Byte := 1
  const BINARY_UPLOAD: Byte := 2
  const COMPRESSED_JSON: Byte := 3
  const ENVELOPE_V1: Byte := 1
  const VERSION_LENGTH: nat := 1
  const NONCE_LENGTH: nat := 24
  const MIN_BINARY_ENVELOPE_LENGTH: nat := VERSION_LENGTH + NONCE_LENGTH + 16 + 1
  const UUID_BYTE_LENGTH: nat := 16
  const OFFSET_BYTE_LENGTH: nat := 8
  const UPLOAD_CHUNK_HEADER_SIZE: nat := UUID_BYTE_LENGTH + OFFSET_BYTE_LENGTH

  predicate KnownFormat(b: Byte) { b == JSON || b == BINARY_UPLOAD || b == COMPRESSED_JSON }

  /** `view.set(source, at)` */
  method SetBytes(view: array<Byte>, source: Bytes, at: nat)
    requires at + |source| <= view.Length
    modifies view
    ensures view[..] == old(view[..])[..at] + source + old(view[..])[at + |source|..]
  {
    for i := 0 to |source|
      invariant view[..] == old(view[..at]) + source[..i] + old(view[at + i..])
    {
      view[at + i] := source[i];
    }
  }

  // ---- format byte -------------------------------------------------------

  function DecodeBinaryFrame(data: Bytes): Result<(Byte, Bytes), FrameError> {
    if |data| == 0 || !KnownFormat(data[0]) then Err(UnknownFormat) else Ok((data[0], data[1..]))
  }

  function ExtractFormatAndPayload(decrypted: Bytes): Result<(Byte, Bytes), FrameError> {
    if |decrypted| == 0 || !KnownFormat(decrypted[0]) then Err(InvalidFormat) else Ok((decrypted[0], decrypted[1..]))
  }

  method PrependFormatByte(format: Byte, payload: Bytes) returns (result: Bytes)
    ensures result == [format] + payload
  {
    var buffer: array<Byte> := new Byte[1 + |payload|](_ => 0);
    buffer[0] := format;
    SetBytes(buffer, payload, 1);
    result := buffer[..];
  }

  /** Prepending and extracting the format byte undo each other, in both directions, and the
      two decoders agree on what they accept. */
  lemma FormatByteRoundTrip(format: Byte, payload: Bytes, data: Bytes)
    ensures KnownFormat(format) <==> ExtractFormatAndPayload([format] + payload) == Ok((format, payload))
    ensures ExtractFormatAndPayload(data).Ok? ==>
      [ExtractFormatAndPayload(data).value.0] + ExtractFormatAndPayload(data).value.1 == data
    ensures DecodeBinaryFrame(data).Ok? <==> ExtractFormatAndPayload(data).Ok?
    ensures DecodeBinaryFrame(data).Ok? ==> DecodeBinaryFrame(data).value == ExtractFormatAndPayload(data).value
  {
  }

  // ---- envelope ----------------------------------------------------------

  datatype Envelope = Envelope(version: Byte, nonce: Bytes, ciphertext: Bytes)

  function ParseBinaryEnvelope(data: Bytes): Result<Envelope, FrameError> {
    if |data| < MIN_BINARY_ENVELOPE_LENGTH then Err(InvalidLength)
    else if data[0] != ENVELOPE_V1 then Err(UnknownVersion)
    else Ok(Envelope(data[0], data[VERSION_LENGTH..VERSION_LENGTH + NONCE_LENGTH], data[VERSION_LENGTH + NONCE_LENGTH..]))
  }

  method CreateBinaryEnvelope(nonce: Bytes, ciphertext: Bytes) returns (r: Result<Bytes, FrameError>)
    ensures r == if |nonce| == NONCE_LENGTH then Ok([ENVELOPE_V1] + nonce + ciphertext) else Err(InvalidLength)
  {
    if |nonce| != NONCE_LENGTH { return Err(InvalidLength); }
    var view: array<Byte> := new Byte[VERSION_LENGTH + NONCE_LENGTH + |ciphertext|](_ => 0);
    view[0] := ENVELOPE_V1;
    SetBytes(view, nonce, VERSION_LENGTH);
    SetBytes(view, ciphertext, VERSION_LENGTH + NONCE_LENGTH);
    assert view[..] == [ENVELOPE_V1] + nonce + ciphertext;
    return Ok(view[..]);
  }

  /** Parsing undoes creating exactly when the ciphertext has at least 17 bytes, the MAC and
      one format byte; a shorter one is refused for its length. */
  lemma EnvelopeRoundTrip(nonce: Bytes, ciphertext: Bytes)
    requires |nonce| == NONCE_LENGTH
    ensures var data := [ENVELOPE_V1] + nonce + ciphertext;
      && (ParseBinaryEnvelope(data) == Ok(Envelope(ENVELOPE_V1, nonce, ciphertext)) <==> |ciphertext| >= 17)
      && (|ciphertext| < 17 ==> ParseBinaryEnvelope(data) == Err(InvalidLength))
  {
    var data := [ENVELOPE_V1] + nonce + ciphertext;
    assert data[1..25] == nonce && data[25..] == ciphertext;
  }

  /** Every accepted envelope is what creating it again from its parts gives. */
  lemma EnvelopeReencodes(data: Bytes)
    requires ParseBinaryEnvelope(data).Ok?
    ensures var e := ParseBinaryEnvelope(data).value;
      |e.nonce| == NONCE_LENGTH && [e.version] + e.nonce + e.ciphertext == data && e.version == ENVELOPE_V1
  {
  }

  // ---- offsets -----------------------------------------------------------

  function BigEndian32(v: nat): (b: Bytes)
    requires v < TWO_32
    ensures |b| == 4
  {
    [v / 0x100_0000, v / 0x1_0000 % 256, v / 256 % 256, v % 256]
  }

  function FromBigEndian32(b: Bytes): (v: nat)
    requires |b| == 4
    ensures v < TWO_32
  {
    ((b[0] as nat * 256 + b[1]) * 256 + b[2]) * 256 + b[3]
  }

  lemma BigEndianRoundTrip(v: nat, b: Bytes)
    ensures v < TWO_32 ==> FromBigEndian32(BigEndian32(v)) == v
    ensures |b| == 4 ==> BigEndian32(FromBigEndian32(b)) == b
  {
    if v < TWO_32 { ValueOf(v); }
    if |b| == 4 {
      DigitsOf(b[0], b[1], b[2], b[3]);
      assert BigEndian32(FromBigEndian32(b)) == b;
    }
  }

  lemma ValueOf(v: nat)
    ensures ((v / 0x100_0000 * 256 + v / 0x1_0000 % 256) * 256 + v / 256 % 256) * 256 + v % 256 == v
  {
    assert v / 0x100_0000 == v / 0x1_0000 / 256;
    assert v / 0x1_0000 == v / 256 / 256;
  }

  lemma DigitsOf(a: Byte, b: Byte, c: Byte, d: Byte)
    ensures var w := ((a as nat * 256 + b) * 256 + c) * 256 + d;
      w / 0x100_0000 == a && w / 0x1_0000 % 256 == b && w / 256 % 256 == c && w % 256 == d
  {
    var w := ((a as nat * 256 + b) * 256 + c) * 256 + d;
    assert w / 256 == (a as nat * 256 + b) * 256 + c;
    assert w / 0x1_0000 == a as nat * 256 + b;
    assert w / 0x100_0000 == a;
  }

  predicate EncodableOffset(value: Number) {
    value.Finite? && 0.0 <= value.value <= MAX_SAFE_INTEGER as real && value.value == value.value.Floor as real
  }

  function OffsetBytes(v: nat): Bytes
    requires v <= MAX_SAFE_INTEGER
  {
    BigEndian32(v / TWO_32) + BigEndian32(v % TWO_32)
  }

  /** `value >>> 0` of an integer. */
  function ToUint32(value: int): nat { value % TWO_32 }

  method OffsetToBytes(value: Number) returns (r: Result<Bytes, FrameError>)
    ensures r == if EncodableOffset(value) then Ok(OffsetBytes(value.value.Floor)) else Err(InvalidOffset)
  {
    if value == NegativeInfinity || (value.Finite? && value.value < 0.0) { return Err(InvalidOffset); }
    if !value.Finite? || value.value != value.value.Floor as real { return Err(InvalidOffset); }
    if value.value > MAX_SAFE_INTEGER as real { return Err(InvalidOffset); }
    var high := (value.value / TWO_32 as real).Floor;
    var low := ToUint32(value.value.Floor);
    FloorOfQuotient(value.value.Floor);
    var view: array<Byte> := new Byte[8](_ => 0);
    SetBytes(view, BigEndian32(high), 0);
    SetBytes(view, BigEndian32(low), 4);
    assert view[..] == OffsetBytes(value.value.Floor);
    return Ok(view[..]);
  }

  lemma FloorOfQuotient(v: nat)
    requires v <= MAX_SAFE_INTEGER
    ensures (v as real / TWO_32 as real).Floor == v / TWO_32 < TWO_32
  {
    var q, r := v / TWO_32, v % TWO_32;
    assert v == q * TWO_32 + r;
    assert v as real == (q * TWO_32) as real + r as real;
    assert v as real / TWO_32 as real == q as real + r as real / TWO_32 as real;
    assert 0.0 <= r as real / TWO_32 as real < 1.0;
  }

  /** `high * 2^32 + low`, each operation rounded to a double. */
  function OffsetValue(bytes: Bytes): nat
    requires |bytes| == 8
  {
    Rounded(Rounded(FromBigEndian32(bytes[..4]) * TWO_32) + FromBigEndian32(bytes[4..]))
  }

  /** The 64-bit integer the bytes stand for. */
  function ExactOffset(bytes: Bytes): nat
    requires |bytes| == 8
  {
    FromBigEndian32(bytes[..4]) * TWO_32 + FromBigEndian32(bytes[4..])
  }

  function BytesToOffset(bytes: Bytes): Result<nat, FrameError> {
    if |bytes| != 8 then Err(InvalidOffset)
    else if OffsetValue(bytes) > MAX_SAFE_INTEGER then Err(InvalidOffset)
    else Ok(OffsetValue(bytes))
  }

  /** The test on the rounded double rejects exactly the inputs whose exact value is 2^53 or
      more, and every accepted value is exact. */
  lemma RoundedTestExact(bytes: Bytes)
    requires |bytes| == 8
    ensures BytesToOffset(bytes).Ok? <==> ExactOffset(bytes) < TWO_53
    ensures BytesToOffset(bytes).Ok? ==> BytesToOffset(bytes).value == ExactOffset(bytes)
  {
    HighPartExact(FromBigEndian32(bytes[..4]));
    var n := ExactOffset(bytes);
    assert OffsetValue(bytes) == Rounded(n);
    if n < TWO_53 { RoundedExact(n); } else { RoundedStaysUnsafe(n); }
  }

  lemma OffsetRoundTrip(v: nat)
    requires v <= MAX_SAFE_INTEGER
    ensures |OffsetBytes(v)| == 8 && BytesToOffset(OffsetBytes(v)) == Ok(v)
  {
    var bytes := OffsetBytes(v);
    assert bytes[..4] == BigEndian32(v / TWO_32) && bytes[4..] == BigEndian32(v % TWO_32);
    BigEndianRoundTrip(v / TWO_32, []);
    BigEndianRoundTrip(v % TWO_32, []);
    RoundedTestExact(bytes);
  }

  /** Every 8-byte input is rejected or re-encodes to itself. */
  lemma OffsetReencodes(bytes: Bytes)
    requires BytesToOffset(bytes).Ok?
    ensures BytesToOffset(bytes).value <= MAX_SAFE_INTEGER && OffsetBytes(BytesToOffset(bytes).value) == bytes
  {
    RoundedTestExact(bytes);
    BigEndianRoundTrip(0, bytes[..4]);
    BigEndianRoundTrip(0, bytes[4..]);
    var v := ExactOffset(bytes);
    DivisionUnique(v, TWO_32, FromBigEndian32(bytes[..4]), FromBigEndian32(bytes[4..]));
    assert bytes[..4] + bytes[4..] == bytes;
  }

  // ---- UUIDs -------------------------------------------------------------

  function Strip(uuid: string): string {
    if uuid == "" then "" else (if uuid[0] == '-' then "" else [uuid[0]]) + Strip(uuid[1..])
  }

  predicate IsHex(c: char) { '0' <= c <= '9' || 'a' <= c <= 'f' || 'A' <= c <= 'F' }

  predicate AllHex(s: string) { forall i :: 0 <= i < |s| ==> IsHex(s[i]) }

  predicate IsUuid(uuid: string) { |Strip(uuid)| == 32 && AllHex(Strip(uuid)) }

  function HexValue(c: char): (v: nat)
    requires IsHex(c)
    ensures v < 16
  {
    if c <= '9' then c as nat - '0' as nat else if c <= 'F' then c as nat - 'A' as nat + 10 else c as nat - 'a' as nat + 10
  }

  function HexDigit(v: nat): (c: char)
    requires v < 16
    ensures IsHex(c)
  {
    if v < 10 then ('0' as nat + v) as char else ('a' as nat + v - 10) as char
  }

  function LowerHex(c: char): char
    requires IsHex(c)
  {
    if 'A' <= c <= 'F' then (c as nat + 32) as char else c
  }

  function Lower(s: string): (r: string)
    requires AllHex(s)
    ensures |r| == |s|
  {
    seq(|s|, i requires 0 <= i < |s| => LowerHex(s[i]))
  }

  function Pair(hex: string, i: nat): Byte
    requires 2 * i + 1 < |hex| && AllHex(hex)
  {
    HexValue(hex[2 * i]) * 16 + HexValue(hex[2 * i + 1])
  }

  function HexBytes(hex: string): (b: Bytes)
    requires |hex| == 32 && AllHex(hex)
    ensures |b| == 16
  {
    seq(16, i requires 0 <= i < 16 => Pair(hex, i))
  }

  method UuidToBytes(uuid: string) returns (r: Result<Bytes, FrameError>)
    ensures r == if IsUuid(uuid) then Ok(HexBytes(Strip(uuid))) else Err(InvalidUuid)
  {
    var hex := Strip(uuid);
    if |hex| != 32 { return Err(InvalidUuid); }
    if !AllHex(hex) { return Err(InvalidUuid); }
    var bytes: array<Byte> := new Byte[16](_ => 0);
    for i := 0 to 16
      invariant forall k :: 0 <= k < i ==> bytes[k] == Pair(hex, k)
    {
      bytes[i] := HexValue(hex[2 * i]) * 16 + HexValue(hex[2 * i + 1]);
    }
    assert bytes[..] == HexBytes(hex);
    return Ok(bytes[..]);
  }

  function ByteHex(b: Byte): (s: string)
    ensures |s| == 2 && AllHex(s)
  {
    [HexDigit(b / 16), HexDigit(b % 16)]
  }

  function HexOf(bytes: Bytes): (s: string)
    ensures |s| == 2 * |bytes| && AllHex(s)
    ensures forall i :: 0 <= i < |s| ==> s[i] == ByteHex(bytes[i / 2])[i % 2]
  {
    seq(2 * |bytes|, i requires 0 <= i < 2 * |bytes| => ByteHex(bytes[i / 2])[i % 2])
  }

  /** The 8-4-4-4-12 form. */
  function Hyphenated(hex: string): (s: string)
    requires |hex| == 32
    ensures |s| == 36
  {
    hex[..8] + ("-" + (hex[8..12] + ("-" + (hex[12..16] + ("-" + (hex[16..20] + ("-" + hex[20..])))))))
  }

  function BytesToUuid(bytes: Bytes): Result<string, FrameError> {
    if |bytes| != 16 then Err(InvalidUuid) else Ok(Hyphenated(HexOf(bytes)))
  }

  /** The same UUID in lower case and in the standard form. */
  function Canonical(uuid: string): string
    requires IsUuid(uuid)
  {
    Hyphenated(Lower(Strip(uuid)))
  }

  lemma {:induction false} StripJoins(a: string, b: string)
    ensures Strip(a + b) == Strip(a) + Strip(b)
  {
    if a == "" {
      assert a + b == b;
    } else {
      assert (a + b)[1..] == a[1..] + b;
      StripJoins(a[1..], b);
    }
  }

  lemma {:induction false} StripKeeps(s: string)
    requires '-' !in s
    ensures Strip(s) == s
  {
    if s != "" { StripKeeps(s[1..]); }
  }

  lemma StripHyphenated(hex: string)
    requires |hex| == 32 && AllHex(hex)
    ensures Strip(Hyphenated(hex)) == hex
  {
    var a, b, c, d, e := hex[..8], hex[8..12], hex[12..16], hex[16..20], hex[20..];
    var last := d + ("-" + e);
    StripKeeps(e);
    StripGroup(d, e);
    StripGroup(c, last);
    StripGroup(b, c + ("-" + last));
    StripGroup(a, b + ("-" + (c + ("-" + last))));
    assert a + (b + (c + (d + e))) == hex;
  }

  lemma StripGroup(group: string, rest: string)
    requires '-' !in group
    ensures Strip(group + ("-" + rest)) == group + Strip(rest)
  {
    StripKeeps(group);
    StripHyphen(rest);
    StripJoins(group, "-" + rest);
  }

  lemma StripHyphen(rest: string)
    ensures Strip("-" + rest) == Strip(rest)
  {
    assert ("-" + rest)[1..] == rest;
    assert [] + Strip(rest) == Strip(rest);
  }

  lemma HexOfHexBytes(hex: string)
    requires |hex| == 32 && AllHex(hex)
    ensures HexOf(HexBytes(hex)) == Lower(hex)
  {
    var bytes, back := HexBytes(hex), HexOf(HexBytes(hex));
    forall k | 0 <= k < 32 ensures back[k] == LowerHex(hex[k]) {
      var i := k / 2;
      PairDigits(hex, i);
      PairText(bytes, i);
      assert bytes[i] == Pair(hex, i);
      DigitOfValue(hex[k]);
      assert k == 2 * i || k == 2 * i + 1;
    }
  }

  lemma DigitOfValue(c: char)
    requires IsHex(c)
    ensures HexDigit(HexValue(c)) == LowerHex(c)
  {
  }

  lemma PairText(bytes: Bytes, i: nat)
    requires i < |bytes|
    ensures |HexOf(bytes)| == 2 * |bytes|
    ensures HexOf(bytes)[2 * i] == HexDigit(bytes[i] / 16) && HexOf(bytes)[2 * i + 1] == HexDigit(bytes[i] % 16)
  {
  }

  lemma PairDigits(hex: string, i: nat)
    requires |hex| == 32 && AllHex(hex) && i < 16
    ensures Pair(hex, i) / 16 == HexValue(hex[2 * i]) && Pair(hex, i) % 16 == HexValue(hex[2 * i + 1])
  {
  }

  lemma HexBytesOfHexOf(bytes: Bytes)
    requires |bytes| == 16
    ensures HexBytes(HexOf(bytes)) == bytes
  {
    var hex := HexOf(bytes);
    forall i | 0 <= i < 16 ensures HexBytes(hex)[i] == bytes[i] {
      PairText(bytes, i);
    }
  }

  /** Decoding an encoded UUID gives its canonical form; encoding a decoded one gives the
      bytes back, and its text is canonical. */
  lemma UuidRoundTrip(uuid: string, bytes: Bytes)
    ensures IsUuid(uuid) ==> BytesToUuid(HexBytes(Strip(uuid))) == Ok(Canonical(uuid))
    ensures |bytes| == 16 ==>
      var text := BytesToUuid(bytes).value;
      IsUuid(text) && HexBytes(Strip(text)) == bytes && Canonical(text) == text
  {
    if IsUuid(uuid) { HexOfHexBytes(Strip(uuid)); }
    if |bytes| == 16 {
      StripHyphenated(HexOf(bytes));
      HexBytesOfHexOf(bytes);
      HexOfHexBytes(HexOf(bytes));
    }
  }

  // ---- upload chunks -----------------------------------------------------

  datatype UploadChunk = UploadChunk(uploadId: string, offset: nat, data: Bytes)

  /** What both encoders check before they write anything. */
  function EncodeCheck(uploadId: string, offset: Number): Result<(), FrameError> {
    if !IsUuid(uploadId) then Err(InvalidUuid)
    else if !EncodableOffset(offset) then Err(InvalidOffset)
    else Ok(())
  }

  function ChunkPayload(uploadId: string, offset: nat, data: Bytes): Bytes
    requires IsUuid(uploadId) && offset <= MAX_SAFE_INTEGER
  {
    HexBytes(Strip(uploadId)) + OffsetBytes(offset) + data
  }

  method EncodeUploadChunkPayload(uploadId: string, offset: Number, data: Bytes) returns (r: Result<Bytes, FrameError>)
    ensures r == match EncodeCheck(uploadId, offset)
      case Err(e) => Err(e)
      case Ok(_) => Ok(ChunkPayload(uploadId, offset.value.Floor, data))
  {
    var uuidBytes := UuidToBytes(uploadId);
    if uuidBytes.Err? { return Err(uuidBytes.error); }
    var offsetBytes := OffsetToBytes(offset);
    if offsetBytes.Err? { return Err(offsetBytes.error); }
    var result: array<Byte> := new Byte[UUID_BYTE_LENGTH + OFFSET_BYTE_LENGTH + |data|](_ => 0);
    var pos := 0;
    SetBytes(result, uuidBytes.value, pos);
    pos := pos + UUID_BYTE_LENGTH;
    SetBytes(result, offsetBytes.value, pos);
    pos := pos + OFFSET_BYTE_LENGTH;
    SetBytes(result, data, pos);
    assert result[..] == uuidBytes.value + offsetBytes.value + data;
    return Ok(result[..]);
  }

  /** Three writes behind each other, over a buffer that starts with the format byte. */
  lemma ThreeWrites(v: Bytes, format: Byte, a: Bytes, b: Bytes, c: Bytes)
    requires |a| == 16 && |b| == 8 && |v| == 25 + |c| && v[0] == format
    ensures var v1 := v[..1] + a + v[17..];
      var v2 := v1[..17] + b + v1[25..];
      v2[..25] + c + v2[25 + |c|..] == [format] + (a + b + c)
  {
  }

  method EncodeUploadChunkFrame(uploadId: string, offset: Number, data: Bytes) returns (r: Result<Bytes, FrameError>)
    ensures r == match EncodeCheck(uploadId, offset)
      case Err(e) => Err(e)
      case Ok(_) => Ok([BINARY_UPLOAD] + ChunkPayload(uploadId, offset.value.Floor, data))
  {
    var uuidBytes := UuidToBytes(uploadId);
    if uuidBytes.Err? { return Err(uuidBytes.error); }
    var offsetBytes := OffsetToBytes(offset);
    if offsetBytes.Err? { return Err(offsetBytes.error); }
    var view: array<Byte> := new Byte[1 + UUID_BYTE_LENGTH + OFFSET_BYTE_LENGTH + |data|](_ => 0);
    var pos := 0;
    view[pos] := BINARY_UPLOAD;
    ghost var start := view[..];
    pos := pos + 1;
    SetBytes(view, uuidBytes.value, pos);
    pos := pos + UUID_BYTE_LENGTH;
    SetBytes(view, offsetBytes.value, pos);
    pos := pos + OFFSET_BYTE_LENGTH;
    SetBytes(view, data, pos);
    ThreeWrites(start, BINARY_UPLOAD, uuidBytes.value, offsetBytes.value, data);
    return Ok(view[..]);
  }

  function DecodeUploadChunkPayload(payload: Bytes): Result<UploadChunk, FrameError> {
    if |payload| < UPLOAD_CHUNK_HEADER_SIZE then Err(InvalidLength)
    else
      var uuid := BytesToUuid(payload[..UUID_BYTE_LENGTH]);
      var offset := BytesToOffset(payload[UUID_BYTE_LENGTH..UPLOAD_CHUNK_HEADER_SIZE]);
      if uuid.Err? then Err(uuid.error)
      else if offset.Err? then Err(offset.error)
      else Ok(UploadChunk(uuid.value, offset.value, payload[UPLOAD_CHUNK_HEADER_SIZE..]))
  }

  function DecodeUploadChunkFrame(data: Bytes): Result<UploadChunk, FrameError> {
    match DecodeBinaryFrame(data)
    case Err(e) => Err(e)
    case Ok((format, payload)) => if format != BINARY_UPLOAD then Err(UnknownFormat) else DecodeUploadChunkPayload(payload)
  }

  /** For every id, offset and data: decoding an encoded payload, or frame, gives the same
      offset and data and the id in canonical form. */
  lemma ChunkRoundTrip(uploadId: string, offset: nat, data: Bytes)
    requires IsUuid(uploadId) && offset <= MAX_SAFE_INTEGER
    ensures DecodeUploadChunkPayload(ChunkPayload(uploadId, offset, data)) == Ok(UploadChunk(Canonical(uploadId), offset, data))
    ensures DecodeUploadChunkFrame([BINARY_UPLOAD] + ChunkPayload(uploadId, offset, data)) == Ok(UploadChunk(Canonical(uploadId), offset, data))
  {
    var payload := ChunkPayload(uploadId, offset, data);
    OffsetRoundTrip(offset);
    UuidRoundTrip(uploadId, []);
    assert payload[..16] == HexBytes(Strip(uploadId));
    assert payload[16..24] == OffsetBytes(offset);
    assert payload[24..] == data;
    assert ([BINARY_UPLOAD] + payload)[1..] == payload;
  }

  /** Every payload the decoder accepts is the encoding of what it decoded; the decoder
      refuses exactly the payloads that are too short or whose offset is 2^53 or more. */
  lemma ChunkReencodes(payload: Bytes)
    ensures DecodeUploadChunkPayload(payload).Ok? <==>
      |payload| >= UPLOAD_CHUNK_HEADER_SIZE && ExactOffset(payload[UUID_BYTE_LENGTH..UPLOAD_CHUNK_HEADER_SIZE]) < TWO_53
    ensures DecodeUploadChunkPayload(payload).Ok? ==>
      var c := DecodeUploadChunkPayload(payload).value;
      IsUuid(c.uploadId) && c.offset <= MAX_SAFE_INTEGER && ChunkPayload(c.uploadId, c.offset, c.data) == payload
  {
    if |payload| >= UPLOAD_CHUNK_HEADER_SIZE {
      RoundedTestExact(payload[16..24]);
      UuidRoundTrip("", payload[..16]);
      if DecodeUploadChunkPayload(payload).Ok? {
        OffsetReencodes(payload[16..24]);
        assert payload[..16] + payload[16..24] + payload[24..] == payload;
      }
    }
  }

  /** The frame decoder is the payload decoder after the format byte, on every input. */
  lemma DecodersAgree(data: Bytes)
    ensures DecodeUploadChunkFrame(data).Ok? <==>
      |data| > 0 && data[0] == BINARY_UPLOAD && DecodeUploadChunkPayload(data[1..]).Ok?
    ensures DecodeUploadChunkFrame(data).Ok? ==> DecodeUploadChunkFrame(data) == DecodeUploadChunkPayload(data[1..])
  {
  }

  // ---- on the wire -------------------------------------------------------

  /** The number that eight bytes spell, most significant first. */
  function Weighted(b: Bytes): nat
    requires |b| == 8
  {
    b[0] as nat * 0x100_0000_0000_0000 + b[1] as nat * 0x1_0000_0000_0000
    + b[2] as nat * 0x100_0000_0000 + b[3] as nat * 0x1_0000_0000
    + b[4] as nat * 0x100_0000 + b[5] as nat * 0x1_0000 + b[6] as nat * 0x100 + b[7]
  }

  /** The exact value of any eight bytes is the number they spell. */
  lemma ExactOffsetIsWeighted(b: Bytes)
    requires |b| == 8
    ensures ExactOffset(b) == Weighted(b)
  {
    assert b[..4] == [b[0], b[1], b[2], b[3]] && b[4..] == [b[4], b[5], b[6], b[7]];
  }

  /** An encoded offset spells the offset: byte `i` is its digit of weight 256^(7-i). */
  lemma OffsetOnTheWire(v: nat)
    requires v <= MAX_SAFE_INTEGER
    ensures |OffsetBytes(v)| == 8 && Weighted(OffsetBytes(v)) == v
  {
    var b := OffsetBytes(v);
    assert b[..4] == BigEndian32(v / TWO_32) && b[4..] == BigEndian32(v % TWO_32);
    BigEndianRoundTrip(v / TWO_32, []);
    BigEndianRoundTrip(v % TWO_32, []);
    ExactOffsetIsWeighted(b);
  }

  /** Eight bytes are accepted exactly when they spell a safe integer, and decode to it. */
  lemma DecodedOffsetIsWeighted(b: Bytes)
    requires |b| == 8
    ensures BytesToOffset(b) == if Weighted(b) <= MAX_SAFE_INTEGER then Ok(Weighted(b)) else Err(InvalidOffset)
  {
    RoundedTestExact(b);
    ExactOffsetIsWeighted(b);
  }

  const LOWER_DIGITS := "0123456789abcdef"
  const UPPER_DIGITS := "0123456789ABCDEF"

  /** `c` is the digit `v`, in either case. */
  predicate Spells(c: char, v: nat)
    requires v < 16
  {
    c == LOWER_DIGITS[v] || c == UPPER_DIGITS[v]
  }

  lemma HexValueSpells(c: char)
    requires IsHex(c)
    ensures Spells(c, HexValue(c))
  {
    var v := HexValue(c);
    assert v < 10 ==> c as int == '0' as int + v && LOWER_DIGITS[v] as int == '0' as int + v;
    assert c >= 'a' ==> c as int == 'a' as int + v - 10 && LOWER_DIGITS[v] as int == 'a' as int + v - 10;
    assert 'A' <= c <= 'F' ==> c as int == 'A' as int + v - 10 && UPPER_DIGITS[v] as int == 'A' as int + v - 10;
  }

  lemma HexDigitIs(v: nat)
    requires v < 16
    ensures HexDigit(v) == LOWER_DIGITS[v]
  {
    assert v < 10 ==> LOWER_DIGITS[v] as int == '0' as int + v;
    assert v >= 10 ==> LOWER_DIGITS[v] as int == 'a' as int + v - 10;
  }

  /** Byte `i` of an encoded UUID is spelled by its hex digits `2i` and `2i + 1`, high half first. */
  lemma UuidOnTheWire(uuid: string, i: nat)
    requires IsUuid(uuid) && i < 16
    ensures var b := HexBytes(Strip(uuid))[i];
      Spells(Strip(uuid)[2 * i], b / 16) && Spells(Strip(uuid)[2 * i + 1], b % 16)
  {
    PairDigits(Strip(uuid), i);
    HexValueSpells(Strip(uuid)[2 * i]);
    HexValueSpells(Strip(uuid)[2 * i + 1]);
  }

  /** Where hex digit `k` stands in the 8-4-4-4-12 form. */
  function PlaceOf(k: nat): nat {
    k + if k < 8 then 0 else if k < 12 then 1 else if k < 16 then 2 else if k < 20 then 3 else 4
  }

  lemma HyphenatedPlaces(hex: string, k: nat)
    requires |hex| == 32 && k < 32
    ensures Hyphenated(hex)[PlaceOf(k)] == hex[k]
    ensures forall j :: j == 8 || j == 13 || j == 18 || j == 23 ==> Hyphenated(hex)[j] == '-'
  {
  }

  /** A decoded UUID has hyphens at 8, 13, 18 and 23, and between them the lower-case digits of
      its bytes in order, high half first. */
  lemma UuidText(bytes: Bytes, i: nat)
    requires |bytes| == 16 && i < 16
    ensures var text := BytesToUuid(bytes).value;
      && |text| == 36 && text[8] == '-' && text[13] == '-' && text[18] == '-' && text[23] == '-'
      && text[PlaceOf(2 * i)] == LOWER_DIGITS[bytes[i] / 16]
      && text[PlaceOf(2 * i + 1)] == LOWER_DIGITS[bytes[i] % 16]
  {
    PairText(bytes, i);
    HyphenatedPlaces(HexOf(bytes), 2 * i);
    HyphenatedPlaces(HexOf(bytes), 2 * i + 1);
    HexDigitIs(bytes[i] / 16);
    HexDigitIs(bytes[i] % 16);
  }

  /** A payload is the sixteen bytes of the id, the eight that spell the offset, and the data. */
  lemma ChunkOnTheWire(uploadId: string, offset: nat, data: Bytes, i: nat)
    requires IsUuid(uploadId) && offset <= MAX_SAFE_INTEGER && i < 16
    ensures var payload, hex := ChunkPayload(uploadId, offset, data), Strip(uploadId);
      && |payload| == 24 + |data| && payload[24..] == data
      && Spells(hex[2 * i], payload[i] / 16) && Spells(hex[2 * i + 1], payload[i] % 16)
      && Weighted(payload[16..24]) == offset
  {
    var payload := ChunkPayload(uploadId, offset, data);
    OffsetOnTheWire(offset);
    UuidOnTheWire(uploadId, i);
    assert payload[16..24] == OffsetBytes(offset) && payload[24..] == data;
    assert payload[i] == HexBytes(Strip(uploadId))[i];
  }
}
