/** core/event.go: the fact an application appends, and its canonical encoding. */
module Events {
  import opened Bytes

  type int64 = t: int | -(TWO63 as int) <= t < TWO63
  type uint16 = n: nat | n < TWO16

  const MAX_KEY_LEN: nat := 0xFFFF
  const HEADER_LEN: nat := 28
  const MAX_PAYLOAD_LEN: nat := TWO32 - 1 - HEADER_LEN - MAX_KEY_LEN

  datatype Event = Event(key: bytes, time: int64, schema: uint16, payload: bytes)

  /** `Event.Validate` returning nil. */
  predicate Valid(e: Event) {
    && e.time >= 0
    && e.schema != 0
    && |e.key| <= MAX_KEY_LEN
    && |e.payload| <= MAX_PAYLOAD_LEN
  }

  /** Go's conversion of a signed 64-bit time to the unsigned field on disk. */
  function TimeBits(t: int64): nat {
    if t < 0 then t + TWO64 else t
  }

  function TimeOf(bits: nat): (t: int64)
    requires bits < TWO64
  {
    if bits >= TWO63 then bits - TWO64 else bits
  }

  /** `Event.AppendCanonical` onto an empty buffer. */
  function Canonical(e: Event): (b: bytes)
    ensures |b| == 12 + |e.key| + |e.payload|
  {
    Little(TimeBits(e.time), 8) + Little(e.schema, 2) + Little(|e.key| % TWO16, 2) + e.key + e.payload
  }

  /** What a canonical encoding says when it is taken apart again. */
  function Parsed(b: bytes): Event
    requires |b| >= 12 && 12 + Number(b[10..12]) <= |b|
  {
    WordSizes();
    LittleOfNumber(b[0..8]);
    LittleOfNumber(b[8..10]);
    var k := Number(b[10..12]);
    Event(b[12..12 + k], TimeOf(Number(b[0..8])), Number(b[8..10]), b[12 + k..])
  }

  lemma CanonicalFields(e: Event)
    ensures Canonical(e)[0..8] == Little(TimeBits(e.time), 8)
    ensures Canonical(e)[8..10] == Little(e.schema, 2)
    ensures Canonical(e)[10..12] == Little(|e.key| % TWO16, 2)
    ensures Canonical(e)[12..12 + |e.key|] == e.key
    ensures Canonical(e)[12 + |e.key|..] == e.payload
  {
  }

  /** A key that fits its length field makes the encoding self-delimiting. */
  lemma ParsedCanonical(e: Event)
    requires |e.key| <= MAX_KEY_LEN
    ensures 12 + Number(Canonical(e)[10..12]) <= |Canonical(e)|
    ensures Parsed(Canonical(e)) == e
  {
    hide Canonical, Little, Number, Pow256;
    WordSizes();
    CanonicalFields(e);
    NumberOfLittle(TimeBits(e.time), 8);
    NumberOfLittle(e.schema, 2);
    NumberOfLittle(|e.key|, 2);
  }

  lemma CanonicalParsed(b: bytes)
    requires |b| >= 12 && 12 + Number(b[10..12]) <= |b|
    ensures Canonical(Parsed(b)) == b
  {
    WordSizes();
    LittleOfNumber(b[0..8]);
    LittleOfNumber(b[8..10]);
    LittleOfNumber(b[10..12]);
    var k := Number(b[10..12]);
    assert b == b[0..8] + b[8..10] + b[10..12] + b[12..12 + k] + b[12 + k..];
  }

  /** No two events with framable keys share an encoding. */
  lemma CanonicalInjective(d: Event, e: Event)
    requires |d.key| <= MAX_KEY_LEN && |e.key| <= MAX_KEY_LEN
    requires Canonical(d) == Canonical(e)
    ensures d == e
  {
    ParsedCanonical(d);
    ParsedCanonical(e);
  }
}
