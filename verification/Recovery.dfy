/**
 * log/recovery.go and the sequential half of log/segment.go: files of records, the
 * scan that opens one, and what a scan makes of a tail that is not a record.
 */
module Recovery {
  import opened Wrappers
  import opened Bytes
  import opened Events
  import opened Records

  /** A record as the log thinks of it: its bytes are `Encode(offset, event)`. */
  datatype Rec = Rec(offset: nat, event: Event)

  /** The last offset is never assigned, so that the one after it is still an offset. */
  predicate Writable(r: Rec) {
    r.offset + 1 < TWO64 && Framable(r.event)
  }

  function Len(r: Rec): (n: nat)
    ensures n >= HEADER_LEN
  {
    RecordLen(r.event)
  }

  function EncodeAll(rs: seq<Rec>): bytes {
    if rs == [] then [] else Encode(rs[0].offset, rs[0].event) + EncodeAll(rs[1..])
  }

  /** What a segment's records always are: writable, at or above its base, strictly ascending. */
  ghost predicate Ascending(base: nat, rs: seq<Rec>) {
    && (forall i :: 0 <= i < |rs| ==> base <= rs[i].offset && Writable(rs[i]))
    && (forall i, j :: 0 <= i < j < |rs| ==> rs[i].offset < rs[j].offset)
  }

  /** The offset a segment will assign next. */
  function NextOf(base: nat, rs: seq<Rec>): nat {
    if rs == [] then base else rs[|rs| - 1].offset + 1
  }

  lemma {:induction false} EncodeAllConcat(a: seq<Rec>, b: seq<Rec>)
    ensures EncodeAll(a + b) == EncodeAll(a) + EncodeAll(b)
  {
    hide Encode;
    if a == [] {
      assert a + b == b;
    } else {
      var one := Encode(a[0].offset, a[0].event);
      assert (a + b)[1..] == a[1..] + b;
      EncodeAllConcat(a[1..], b);
      assert one + (EncodeAll(a[1..]) + EncodeAll(b)) == (one + EncodeAll(a[1..])) + EncodeAll(b);
    }
  }

  lemma EncodeAllOne(r: Rec)
    ensures EncodeAll([r]) == Encode(r.offset, r.event)
  {
    hide Encode;
    assert [r][1..] == [];
  }

  /** Splitting the list splits the bytes at the same place. */
  lemma EncodeAllAt(rs: seq<Rec>, i: nat)
    requires i < |rs|
    ensures EncodeAll(rs) == EncodeAll(rs[..i]) + (Encode(rs[i].offset, rs[i].event) + EncodeAll(rs[i + 1..]))
    ensures EncodeAll(rs[..i + 1]) == EncodeAll(rs[..i]) + Encode(rs[i].offset, rs[i].event)
  {
    hide Encode;
    assert EncodeAll(rs[i..]) == Encode(rs[i].offset, rs[i].event) + EncodeAll(rs[i..][1..]);
    hide EncodeAll;
    assert rs == rs[..i] + rs[i..] && rs[i..][1..] == rs[i + 1..];
    EncodeAllConcat(rs[..i], rs[i..]);
    assert rs[..i + 1] == rs[..i] + [rs[i]];
    EncodeAllConcat(rs[..i], [rs[i]]);
    EncodeAllOne(rs[i]);
  }

  /** `readRecordFrom`: the record at `pos`, which must carry an offset of at least `atLeast`. */
  function ReadFrom(data: bytes, pos: nat, atLeast: nat): Result<Record, Damage>
    requires pos <= |data|
  {
    match Decode(data[pos..])
    case Err(d) => Err(d)
    case Ok(r) => if r.offset < atLeast then Err(Corrupt) else Ok(r)
  }

  lemma ReadAdvances(data: bytes, pos: nat, atLeast: nat)
    requires pos <= |data|
    requires ReadFrom(data, pos, atLeast).Ok?
    ensures HEADER_LEN <= ReadFrom(data, pos, atLeast).value.len <= |data| - pos
    ensures ReadFrom(data, pos, atLeast).value.offset < TWO64
  {
    EncodeDecode(data[pos..]);
  }

  /** Reading at a record boundary finds the record that begins there. */
  lemma ReadAtBoundary(rs: seq<Rec>, i: nat, tail: bytes, atLeast: nat)
    requires i < |rs| && Writable(rs[i]) && atLeast <= rs[i].offset
    ensures var data := EncodeAll(rs) + tail;
            var pos := |EncodeAll(rs[..i])|;
            && pos <= |data|
            && ReadFrom(data, pos, atLeast) == Ok(Record(rs[i].offset, rs[i].event, Len(rs[i])))
  {
    hide Encode, Decode;
    EncodeAllAt(rs, i);
    var data := EncodeAll(rs) + tail;
    var pos := |EncodeAll(rs[..i])|;
    var rest := EncodeAll(rs[i + 1..]) + tail;
    assert data[pos..] == Encode(rs[i].offset, rs[i].event) + rest;
    DecodeEncode(rs[i].offset, rs[i].event, rest);
  }

  /** What opening a record file finds. `records` is the list `Records` counts. */
  datatype Found = Found(records: seq<Rec>, valid: nat, discarded: nat, next: nat, torn: bool, corrupt: bool)

  /** The scan of `data`, given that the next record must carry at least `next`. */
  function Scan(data: bytes, next: nat): Found
    decreases |data|
  {
    if data == [] then Found([], 0, 0, next, false, false) else
    match ReadFrom(data, 0, next)
    case Err(Torn) => Found([], 0, |data|, next, true, false)
    case Err(Corrupt) => Found([], 0, |data|, next, false, true)
    case Ok(r) =>
      ReadAdvances(data, 0, next);
      After([Rec(r.offset, r.event)], r.len, Scan(data[r.len..], (r.offset + 1) % TWO64))
  }

  /** A finding with `rs`, occupying `n` bytes, in front of it. */
  function After(rs: seq<Rec>, n: nat, f: Found): Found {
    f.(records := rs + f.records, valid := n + f.valid)
  }

  lemma ScanFirst(base: nat, rs: seq<Rec>, tail: bytes)
    requires Ascending(base, rs) && rs != []
    ensures |EncodeAll(rs)| == Len(rs[0]) + |EncodeAll(rs[1..])|
    ensures Ascending(rs[0].offset + 1, rs[1..])
    ensures Scan(EncodeAll(rs) + tail, base)
            == After([rs[0]], Len(rs[0]), Scan(EncodeAll(rs[1..]) + tail, rs[0].offset + 1))
  {
    hide Encode, ReadFrom;
    var data := EncodeAll(rs) + tail;
    ReadAtBoundary(rs, 0, tail, base);
    assert rs[..0] == [];
    assert EncodeAll(rs) == Encode(rs[0].offset, rs[0].event) + EncodeAll(rs[1..]);
    assert data[Len(rs[0])..] == EncodeAll(rs[1..]) + tail;
    hide EncodeAll;
  }

  lemma NothingAfter(f: Found)
    ensures EncodeAll([]) == [] && After([], 0, f) == f
  {
  }

  lemma AfterAfter(a: seq<Rec>, m: nat, b: seq<Rec>, n: nat, f: Found)
    ensures After(a, m, After(b, n, f)) == After(a + b, m + n, f)
  {
    assert a + (b + f.records) == (a + b) + f.records;
  }

  /** Whatever follows them, whole records are found, and the scan goes on from there. */
  lemma {:induction false} ScanWholeRecords(base: nat, rs: seq<Rec>, tail: bytes)
    requires Ascending(base, rs)
    ensures Scan(EncodeAll(rs) + tail, base) == After(rs, |EncodeAll(rs)|, Scan(tail, NextOf(base, rs)))
    decreases |rs|
  {
    hide Scan, EncodeAll, After, Ascending;
    if rs == [] {
      NothingAfter(Scan(tail, base));
      assert EncodeAll(rs) + tail == tail;
    } else {
      ScanFirst(base, rs, tail);
      ScanWholeRecords(rs[0].offset + 1, rs[1..], tail);
      AfterAfter([rs[0]], Len(rs[0]), rs[1..], |EncodeAll(rs[1..])|, Scan(tail, NextOf(base, rs)));
      assert [rs[0]] + rs[1..] == rs;
    }
  }

  /** A tail that no reader will take a record from, for want of bytes or of a sane length. */
  predicate Unframed(t: bytes) {
    |t| < HEADER_LEN || ReadLength(t) < HEADER_LEN || ReadLength(t) > |t|
  }

  lemma ScanUnframed(t: bytes, next: nat)
    requires Unframed(t)
    ensures var f := Scan(t, next);
            f.records == [] && f.valid == 0 && f.discarded == |t| && f.next == next
    ensures t == [] ==> !Scan(t, next).torn && !Scan(t, next).corrupt
  {
    hide Number, Checksum;
    if t != [] {
      assert t[0..] == t;
    }
  }

  /** What is left of an unframed tail after losing more of its end is unframed too. */
  lemma UnframedPrefix(t: bytes, n: nat)
    requires Unframed(t) && n <= |t|
    ensures Unframed(t[..n])
  {
    hide Number;
    if n >= HEADER_LEN {
      assert t[..n][8..12] == t[8..12];
    }
  }

  lemma UnframedZeros(n: nat)
    ensures Unframed(Zeros(n))
  {
    if n >= HEADER_LEN {
      NumberOfZeros(Zeros(n)[8..12]);
    }
  }

  lemma UnframedStrictPrefix(r: Rec, n: nat)
    requires Writable(r) && n < Len(r)
    ensures Unframed(Encode(r.offset, r.event)[..n])
  {
    hide Encode, Number, Checksum, Canonical;
    var b := Encode(r.offset, r.event);
    HeaderOf(r.offset, r.event);
    if n >= HEADER_LEN {
      assert b[..n][8..12] == b[8..12];
    }
  }

  /** Scanning whole records followed by an unframed tail finds exactly the records. */
  lemma ScanExact(base: nat, rs: seq<Rec>, tail: bytes)
    requires Ascending(base, rs) && Unframed(tail)
    ensures var f := Scan(EncodeAll(rs) + tail, base);
            && f.records == rs
            && f.valid == |EncodeAll(rs)|
            && f.discarded == |tail|
            && f.next == NextOf(base, rs)
    ensures tail == [] ==> !Scan(EncodeAll(rs), base).torn && !Scan(EncodeAll(rs), base).corrupt
  {
    hide Unframed, EncodeAll;
    ScanWholeRecords(base, rs, tail);
    ScanUnframed(tail, NextOf(base, rs));
    if tail == [] {
      assert EncodeAll(rs) + tail == EncodeAll(rs);
    }
  }

  /** A crash that tears the next record: exactly the list, and the tear is what is discarded. */
  lemma ScanTornRecord(base: nat, rs: seq<Rec>, r: Rec, n: nat)
    requires Ascending(base, rs) && Writable(r) && 0 < n < Len(r)
    ensures var f := Scan(EncodeAll(rs) + Encode(r.offset, r.event)[..n], base);
            && f.records == rs && f.valid == |EncodeAll(rs)| && f.discarded == n
            && f.next == NextOf(base, rs) && f.torn && !f.corrupt
  {
    hide EncodeAll, Encode, Decode, Unframed;
    var t := Encode(r.offset, r.event)[..n];
    UnframedStrictPrefix(r, n);
    ScanExact(base, rs, t);
    ScanWholeRecords(base, rs, t);
    PrefixIsTorn(r.offset, r.event, n);
    assert t[0..] == t;
  }

  /** A crash that leaves a hole of zeros: exactly the list, and the hole is what is discarded. */
  lemma ScanZeroTail(base: nat, rs: seq<Rec>, n: nat)
    requires Ascending(base, rs) && n > 0
    ensures var f := Scan(EncodeAll(rs) + Zeros(n), base);
            && f.records == rs && f.valid == |EncodeAll(rs)| && f.discarded == n
            && f.next == NextOf(base, rs) && f.torn == (n < HEADER_LEN) && f.corrupt == (n >= HEADER_LEN)
  {
    hide EncodeAll, Unframed, Number;
    UnframedZeros(n);
    ScanExact(base, rs, Zeros(n));
    ScanWholeRecords(base, rs, Zeros(n));
    assert Zeros(n)[0..] == Zeros(n);
    if n >= HEADER_LEN {
      NumberOfZeros(Zeros(n)[8..12]);
    }
  }

  /** One damaged byte in a record: the scan keeps the records before it and invents nothing. */
  lemma ScanDamagedRecord(base: nat, rs: seq<Rec>, k: nat, i: nat, x: byte)
    requires Ascending(base, rs) && k < |rs|
    requires i < Len(rs[k]) && !(8 <= i < 12)
    ensures var data := EncodeAll(rs);
            var at := |EncodeAll(rs[..k])| + i;
            && at < |data|
            && (x != data[at] ==>
                  var f := Scan(data[at := x], base);
                  f.records == rs[..k] && f.valid == |EncodeAll(rs[..k])| && f.corrupt)
  {
    hide Encode, Decode, EncodeAll;
    var data := EncodeAll(rs);
    var one, rest := Encode(rs[k].offset, rs[k].event), EncodeAll(rs[k + 1..]);
    EncodeAllAt(rs, k);
    var at := |EncodeAll(rs[..k])| + i;
    assert data[at] == one[i];
    if x != data[at] {
      var t := (one + rest)[i := x];
      DecodeEncode(rs[k].offset, rs[k].event, rest);
      OneByteDamage(one + rest, i, x);
      assert data[at := x] == EncodeAll(rs[..k]) + t;
      ScanWholeRecords(base, rs[..k], t);
      assert t[0..] == t;
      assert rs[..k] + [] == rs[..k];
    }
  }

  /** Cutting a record file anywhere leaves whole records and an unframed tail. */
  lemma {:induction false} CutWholeRecords(base: nat, rs: seq<Rec>, tail: bytes, n: nat) returns (k: nat, t: bytes)
    requires Ascending(base, rs) && Unframed(tail)
    requires n <= |EncodeAll(rs) + tail|
    ensures k <= |rs| && Unframed(t)
    ensures (EncodeAll(rs) + tail)[..n] == EncodeAll(rs[..k]) + t
    ensures forall m :: 0 <= m <= |rs| && |EncodeAll(rs[..m])| <= n ==> m <= k
    decreases |rs|
  {
    hide Encode, Unframed;
    if rs == [] {
      k, t := 0, tail[..n];
      assert EncodeAll(rs) + tail == tail;
      UnframedPrefix(tail, n);
    } else if n < Len(rs[0]) {
      k, t := 0, Encode(rs[0].offset, rs[0].event)[..n];
      UnframedStrictPrefix(rs[0], n);
      assert (EncodeAll(rs) + tail)[..n] == t;
      forall m | 0 < m <= |rs| ensures |EncodeAll(rs[..m])| > n {
        assert rs[..m][0] == rs[0];
      }
    } else {
      var one := Encode(rs[0].offset, rs[0].event);
      assert EncodeAll(rs) + tail == one + (EncodeAll(rs[1..]) + tail);
      var j;
      j, t := CutWholeRecords(rs[0].offset + 1, rs[1..], tail, n - |one|);
      k := j + 1;
      assert rs[..k] == [rs[0]] + rs[1..][..j];
      assert rs[..k][1..] == rs[1..][..j];
      assert (EncodeAll(rs) + tail)[..n] == one + (EncodeAll(rs[1..]) + tail)[..n - |one|];
      forall m | 0 < m <= |rs| && |EncodeAll(rs[..m])| <= n ensures m <= k {
        assert rs[..m][1..] == rs[1..][..m - 1];
      }
    }
  }
}
