/**
 * log/record.go: one record's framing.
 *
 *   0  8  offset
 *   8  4  total length, header included
 *   12 4  CRC32C of the offset field and of everything from byte 16 on
 *   16    the event's canonical encoding
 */
module Records {
  import opened Wrappers
  import opened Bytes
  import opened Events
  import Crc32c

  const CRC_START: nat := 16
  const MAX_RECORD_LEN: nat := 0x400_0000

  /** How an untrusted buffer fails to be a record. */
  datatype Damage = Torn | Corrupt

  /** The reasons `appendRecord` refuses an event. */
  datatype Refusal = InvalidEvent | TooLong

  datatype Record = Record(offset: nat, event: Event, len: nat)

  function RecordLen(e: Event): nat {
    HEADER_LEN + |e.key| + |e.payload|
  }

  /** An event `appendRecord` will encode. */
  predicate Framable(e: Event) {
    Valid(e) && RecordLen(e) <= MAX_RECORD_LEN
  }

  function Reason(e: Event): Refusal {
    if Valid(e) then TooLong else InvalidEvent
  }

  function ReadLength(header: bytes): nat
    requires |header| >= 12
  {
    Number(header[8..12])
  }

  /** The checksum skips the length and itself: the length is what locates it. */
  function Checksum(record: bytes): (sum: nat)
    requires |record| >= CRC_START
    ensures sum < TWO32
  {
    Crc32c.Value(Crc32c.Update(Crc32c.Update(0, record[0..8]), record[CRC_START..]))
  }

  /** A record before its checksum is patched in. */
  function Unsealed(off: nat, e: Event, sum: nat): (b: bytes)
    ensures |b| == RecordLen(e)
  {
    Little(off, 8) + Little(RecordLen(e), 4) + Little(sum, 4) + Canonical(e)
  }

  /** The bytes of the record carrying `e` at offset `off`. */
  function Encode(off: nat, e: Event): (b: bytes)
    ensures |b| == RecordLen(e)
  {
    Unsealed(off, e, Checksum(Unsealed(off, e, 0)))
  }

  /** The fields of a record, where the format puts them. */
  ghost predicate LaidOut(b: bytes, off: nat, e: Event) {
    && |b| == 28 + |e.key| + |e.payload|
    && Number(b[0..8]) == off && Number(b[8..12]) == |b| && Crc32c.IsChecksum(Number(b[12..16]), b[0..8] + b[16..])
    && Number(b[16..24]) == e.time && Number(b[24..26]) == e.schema && Number(b[26..28]) == |e.key|
    && b[28..28 + |e.key|] == e.key && b[28 + |e.key|..] == e.payload
  }

  /** An event with a field out of its range. */
  ghost predicate OutOfRange(e: Event) {
    e.time < 0 || e.schema == 0 || |e.key| > 65_535 || |e.payload| > 4_294_901_732
  }

  /** `appendRecord`: validate, append with a blank checksum, then patch it in place. */
  method AppendRecord(dst: bytes, off: nat, e: Event) returns (out: bytes, refused: Option<Refusal>)
    requires off < TWO64
    ensures refused == if Framable(e) then None else Some(Reason(e))
    ensures out == if refused.None? then dst + Encode(off, e) else dst
    ensures refused == Some(InvalidEvent) <==> OutOfRange(e)
    ensures refused == Some(TooLong) <==> !OutOfRange(e) && 28 + |e.key| + |e.payload| > 67_108_864
    ensures refused.None? ==> LaidOut(out[|dst|..], off, e)
  {
    hide Canonical, Little, Checksum, LaidOut;
    if Framable(e) {
      FieldsInPlace(off, e);
      assert (dst + Encode(off, e))[|dst|..] == Encode(off, e);
    }
    out, refused := dst, None;
    if !Valid(e) {
      return out, Some(InvalidEvent);
    }
    var total := RecordLen(e);
    if total > MAX_RECORD_LEN {
      return out, Some(TooLong);
    }
    var start := |dst|;
    out := out + Little(off, 8);
    out := out + Little(total, 4);
    out := out + Little(0, 4);
    out := out + Canonical(e);
    assert out[start..] == Unsealed(off, e, 0);
    var sum := Checksum(out[start..]);
    out := out[..start + 12] + Little(sum, 4) + out[start + 16..];
  }

  lemma KeyLengthField(b: bytes, total: nat)
    requires HEADER_LEN <= total <= |b|
    ensures b[CRC_START..total][10..12] == b[26..28]
  {
    var body := b[CRC_START..total];
    assert body[10..12] == [body[10], body[11]] == [b[26], b[27]] == b[26..28];
  }

  /** `decodeRecord`: every field is checked against the record's bounds before it is used. */
  function Decode(b: bytes): Result<Record, Damage> {
    if |b| < HEADER_LEN then Err(Torn) else
    var total := ReadLength(b);
    if total < HEADER_LEN then Err(Corrupt)
    else if total > MAX_RECORD_LEN then Err(Corrupt)
    else if total > |b| then Err(Torn)
    else if Checksum(b[..total]) != Number(b[12..16]) then Err(Corrupt)
    else if HEADER_LEN + Number(b[26..28]) > total then Err(Corrupt)
    else
      hide Number, Checksum;
      var body := b[CRC_START..total];
      KeyLengthField(b, total);
      var e := Parsed(body);
      if Valid(e) then Ok(Record(Number(b[0..8]), e, total)) else Err(Corrupt)
  }

  lemma Layout(off: nat, e: Event, sum: nat)
    ensures var b := Unsealed(off, e, sum);
            && b[0..8] == Little(off, 8)
            && b[8..12] == Little(RecordLen(e), 4)
            && b[12..16] == Little(sum, 4)
            && b[16..] == Canonical(e)
  {
  }

  /** Bytes 16 onward of a record are exactly the event's canonical encoding. */
  lemma BodyIsCanonical(off: nat, e: Event)
    ensures Encode(off, e)[CRC_START..] == Canonical(e)
  {
    Layout(off, e, Checksum(Unsealed(off, e, 0)));
  }

  /** The checksum does not depend on the field it is stored in. */
  lemma ChecksumIgnoresItself(off: nat, e: Event, sum: nat)
    ensures Checksum(Unsealed(off, e, sum)) == Checksum(Unsealed(off, e, 0))
  {
    Layout(off, e, sum);
    Layout(off, e, 0);
  }

  lemma HeaderOf(off: nat, e: Event)
    requires off < TWO64 && Framable(e)
    ensures var b := Encode(off, e);
            && Number(b[0..8]) == off
            && ReadLength(b) == RecordLen(e)
            && Number(b[12..16]) == Checksum(b)
            && Number(b[26..28]) == |e.key|
            && b[16..] == Canonical(e)
  {
    hide Unsealed, Canonical, Checksum, Little, Number, Pow256;
    var sum := Checksum(Unsealed(off, e, 0));
    var b := Encode(off, e);
    WordSizes();
    Layout(off, e, sum);
    ChecksumIgnoresItself(off, e, sum);
    NumberOfLittle(off, 8);
    NumberOfLittle(RecordLen(e), 4);
    NumberOfLittle(sum, 4);
    CanonicalFields(e);
    NumberOfLittle(|e.key|, 2);
    assert b[26..28] == b[16..][10..12];
  }

  /** What is written has every field in its place, and the checksum of all but the length and itself. */
  lemma FieldsInPlace(off: nat, e: Event)
    requires off < TWO64 && Framable(e)
    ensures LaidOut(Encode(off, e), off, e)
  {
    hide Encode, Canonical, Checksum, Little, Number, Pow256, Crc32c.IsChecksum;
    var b := Encode(off, e);
    HeaderOf(off, e);
    CanonicalFields(e);
    WordSizes();
    NumberOfLittle(e.time, 8);
    NumberOfLittle(e.schema, 2);
    assert b[16..24] == b[16..][0..8] && b[24..26] == b[16..][8..10];
    assert b[28..28 + |e.key|] == b[16..][12..12 + |e.key|] && b[28 + |e.key|..] == b[16..][12 + |e.key|..];
    ChecksumOfBoth(b);
  }

  /** The two parts are summed as one. */
  lemma ChecksumOfBoth(b: bytes)
    requires |b| >= CRC_START
    ensures Crc32c.IsChecksum(Checksum(b), b[0..8] + b[16..])
  {
    hide Crc32c.Update, Crc32c.Value, Crc32c.IsChecksum;
    Crc32c.UpdateInTwo(0, b[0..8], b[CRC_START..]);
    Crc32c.UpdateIsChecksum(b[0..8] + b[16..]);
  }

  /** A buffer is torn when its header is not all there, or what the header says is not, and only then. */
  lemma TornExactly(b: bytes)
    ensures Decode(b) == Err(Torn) <==> |b| < 28 || (28 <= Number(b[8..12]) <= 67_108_864 && Number(b[8..12]) > |b|)
  {
    hide Number, Checksum, Parsed;
  }

  /** Every framable event comes back with its offset and length, whatever follows it. */
  lemma DecodeEncode(off: nat, e: Event, rest: bytes)
    requires off < TWO64 && Framable(e)
    ensures Decode(Encode(off, e) + rest) == Ok(Record(off, e, RecordLen(e)))
  {
    hide Encode, Canonical, Checksum, Number, Parsed;
    var b := Encode(off, e);
    var c := b + rest;
    HeaderOf(off, e);
    ParsedCanonical(e);
    assert c[..|b|] == b;
    assert c[0..8] == b[0..8] && c[8..12] == b[8..12] && c[12..16] == b[12..16] && c[26..28] == b[26..28];
    assert c[CRC_START..|b|] == b[CRC_START..];
  }

  /** Whatever decodes re-encodes to the same bytes. */
  lemma EncodeDecode(b: bytes)
    requires Decode(b).Ok?
    ensures var r := Decode(b).value;
            && r.offset < TWO64 && Framable(r.event)
            && r.len == RecordLen(r.event) <= |b|
            && b[..r.len] == Encode(r.offset, r.event)
  {
    hide Canonical, Checksum, Number, Parsed, Little;
    var r := Decode(b).value;
    var c := b[..r.len];
    var body := b[CRC_START..r.len];
    WordSizes();
    KeyLengthField(b, r.len);
    CanonicalParsed(body);
    LittleOfNumber(b[0..8]);
    LittleOfNumber(b[8..12]);
    LittleOfNumber(b[12..16]);
    assert c == b[0..8] + b[8..12] + b[12..16] + body;
    ChecksumIgnoresItself(r.offset, r.event, Checksum(c));
  }

  /** The start of a record is torn, never corrupt: a crash mid-append is not damage. */
  lemma PrefixIsTorn(off: nat, e: Event, n: nat)
    requires off < TWO64 && Framable(e)
    requires n < RecordLen(e)
    ensures Decode(Encode(off, e)[..n]) == Err(Torn)
  {
    hide Encode, Checksum, Number, Parsed;
    var b := Encode(off, e);
    HeaderOf(off, e);
    if n >= HEADER_LEN {
      assert b[..n][8..12] == b[8..12];
    }
  }

  /** One changed byte outside the length field is always caught. */
  lemma OneByteDamage(b: bytes, i: nat, x: byte)
    requires Decode(b).Ok?
    requires i < Decode(b).value.len && !(8 <= i < 12) && x != b[i]
    ensures Decode(b[i := x]) == Err(Corrupt)
  {
    hide Parsed, Number, Checksum;
    var total := Decode(b).value.len;
    var c := b[i := x];
    assert c[8..12] == b[8..12];
    assert c[..total] == b[..total][i := x];
    if 12 <= i < 16 {
      StoredSumMatters(b, i, x);
      ChecksumSkipsItsField(b[..total], i, x);
    } else {
      assert c[12..16] == b[12..16];
      OneByteChangesChecksum(b[..total], i, x);
    }
  }

  lemma StoredSumMatters(b: bytes, i: nat, x: byte)
    requires |b| >= CRC_START && 12 <= i < 16 && x != b[i]
    ensures Number(b[i := x][12..16]) != Number(b[12..16])
  {
    hide Number, Little;
    var c := b[i := x];
    LittleOfNumber(b[12..16]);
    LittleOfNumber(c[12..16]);
    assert c[12..16][i - 12] != b[12..16][i - 12];
  }

  lemma ChecksumSkipsItsField(b: bytes, i: nat, x: byte)
    requires |b| >= CRC_START && 8 <= i < CRC_START
    ensures Checksum(b[i := x]) == Checksum(b)
  {
    assert b[i := x][0..8] == b[0..8] && b[i := x][CRC_START..] == b[CRC_START..];
  }

  lemma OneByteChangesChecksum(b: bytes, i: nat, x: byte)
    requires |b| >= CRC_START && i < |b| && x != b[i]
    requires i < 8 || i >= CRC_START
    ensures Checksum(b[i := x]) != Checksum(b)
  {
    hide Crc32c.Update, Crc32c.Value;
    var c := b[i := x];
    var before := Crc32c.Update(Crc32c.Update(0, b[0..8]), b[CRC_START..]);
    var after := Crc32c.Update(Crc32c.Update(0, c[0..8]), c[CRC_START..]);
    if i < 8 {
      assert c[0..8] == b[0..8][i := x] && c[CRC_START..] == b[CRC_START..];
      Crc32c.OneByteChangesUpdate(0, b[0..8], i, x);
      Crc32c.UpdateInjective(Crc32c.Update(0, c[0..8]), Crc32c.Update(0, b[0..8]), b[CRC_START..]);
    } else {
      assert c[0..8] == b[0..8] && c[CRC_START..] == b[CRC_START..][i - CRC_START := x];
      Crc32c.OneByteChangesUpdate(Crc32c.Update(0, b[0..8]), b[CRC_START..], i - CRC_START, x);
    }
    Crc32c.ValueInjective(before, after);
  }
}
