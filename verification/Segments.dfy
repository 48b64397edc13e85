/**
 * log/segment.go and the opening half of log/recovery.go: one append-only file of
 * records and the sparse index over it.
 */
module Segments {
  import opened Wrappers
  import opened Bytes
  import opened Events
  import opened Records
  import opened Recovery
  import opened SparseIndex
  import opened Rising
  import opened Disks

  /** The errors package log classifies on, and `Io` for a filesystem that failed. */
  datatype Error =
    | NotFound
    | Sealed
    | EndOfLog
    | BadConfig
    | ActiveSegment
    | Refused(refusal: Refusal)
    | Damaged(damage: Damage)
    | Io(fault: Fault)

  /** An error of the disk's, if that is what this is, is a refusal, and one that came in between. */
  ghost predicate Blames(before: nat, now: nat, err: Option<Error>) {
    before <= now && (err.Some? && err.value.Io? ==> before < now && err == Some(Io(Failed)))
  }

  function ErrorOf<T>(r: Result<T, Error>): Option<Error> {
    if r.Err? then Some(r.error) else None
  }

  function Refusing(ok: bool): Option<Error> {
    if ok then None else Some(Io(Failed))
  }

  const DEFAULT_MAX_BYTES: nat := 0x400_0000
  const DEFAULT_INDEX_INTERVAL: nat := 0x1000

  datatype Options = Options(maxBytes: int, interval: int) {
    function Limit(): (n: nat)
      ensures n > 0
    {
      if maxBytes <= 0 then DEFAULT_MAX_BYTES else maxBytes
    }

    function Interval(): (n: nat)
      ensures n > 0
    {
      if interval <= 0 then DEFAULT_INDEX_INTERVAL else interval
    }
  }

  /** Consecutive records carrying `events` from offset `next` on. */
  function Stamp(next: nat, events: seq<Event>): (rs: seq<Rec>)
    ensures |rs| == |events|
    ensures forall i :: 0 <= i < |rs| ==> rs[i] == Rec(next + i, events[i])
  {
    seq(|events|, i requires 0 <= i < |events| => Rec(next + i, events[i]))
  }

  /** How many of `events` a segment of `size` bytes takes in one call. */
  function Taken(size: nat, limit: nat, events: seq<Event>): (n: nat)
    ensures n <= |events|
    ensures forall i :: 0 <= i < n ==> Framable(events[i])
    decreases |events|
  {
    if events == [] || !Framable(events[0]) then 0
    else if size + RecordLen(events[0]) >= limit then 1
    else 1 + Taken(size + RecordLen(events[0]), limit, events[1..])
  }

  /** Whether it stopped at an event it could not frame, rather than because it filled. */
  predicate StopsAtRefusal(size: nat, limit: nat, events: seq<Event>)
    decreases |events|
  {
    events != [] &&
    if !Framable(events[0]) then true
    else if size + RecordLen(events[0]) >= limit then false
    else StopsAtRefusal(size + RecordLen(events[0]), limit, events[1..])
  }

  /** Reading the header and then the body decodes what reading it all at once would. */
  lemma DecodeNeedsOnlyTheRecord(b: bytes)
    requires |b| >= HEADER_LEN && HEADER_LEN <= ReadLength(b) <= |b|
    ensures Decode(b[..ReadLength(b)]) == Decode(b)
  {
    hide Number, Checksum, Parsed;
    var total := ReadLength(b);
    var c := b[..total];
    assert c[0..8] == b[0..8] && c[8..12] == b[8..12] && c[12..16] == b[12..16] && c[26..28] == b[26..28];
    assert c[..total] == c && c[CRC_START..total] == b[CRC_START..total];
  }

  /** What a scan keeps is exactly what it validated. */
  lemma {:induction false} ScanReencodes(data: bytes, next: nat)
    ensures var f := Scan(data, next);
            && f.valid + f.discarded == |data|
            && EncodeAll(f.records) == data[..f.valid]
            && (forall i :: 0 <= i < |f.records| ==> Framable(f.records[i].event))
    decreases |data|
  {
    hide Encode, EncodeAll, Decode;
    if data != [] && ReadFrom(data, 0, next).Ok? {
      var r := ReadFrom(data, 0, next).value;
      assert data[0..] == data;
      EncodeDecode(data);
      var rest := data[r.len..];
      var g := Scan(rest, (r.offset + 1) % TWO64);
      ScanReencodes(rest, (r.offset + 1) % TWO64);
      EncodeAllConcat([Rec(r.offset, r.event)], g.records);
      EncodeAllOne(Rec(r.offset, r.event));
      assert data[..r.len] + rest[..g.valid] == data[..r.len + g.valid];
    } else {
      EmptyHasNoBytes();
    }
  }

  class Segment {
    const fs: FS
    const node: nat
    const name: string
    const base: nat
    const maxBytes: nat
    const interval: nat

    var next: nat
    var size: nat
    var index: seq<Entry>
    var indexed: nat
    var sealed: bool
    var count: nat

    /** The records the file holds, in order. */
    ghost var recs: seq<Rec>

    ghost function Data(): bytes
      requires node < |fs.inodes|
      reads this, fs
    {
      fs.inodes[node].data
    }

    /** The fields agree with the records. */
    ghost predicate Settled()
      reads this
    {
      && interval > 0 && maxBytes > 0
      && size == |EncodeAll(recs)|
      && next == NextOf(base, recs)
      && count == |recs|
      && index == IndexOf(base, recs, interval)
      && indexed == index[|index| - 1].pos
    }

    /** The records agree with the file. An unsealed segment's file ends with its last record. */
    ghost predicate Consistent()
      reads this, fs
    {
      && Settled()
      && fs.Valid() && node < |fs.inodes|
      && size <= |Data()| && Data()[..size] == EncodeAll(recs)
      && (!sealed ==> size == |Data()|)
    }

    ghost predicate Valid()
      reads this, fs
    {
      Consistent() && Ascending(base, recs)
    }

    constructor (fs: FS, node: nat, name: string, base: nat, opts: Options)
      requires fs.Valid() && node < |fs.inodes|
      ensures this.fs == fs && this.node == node && this.name == name && this.base == base
      ensures maxBytes == opts.Limit() && interval == opts.Interval()
      ensures recs == [] && next == base && size == 0 && count == 0 && !sealed
      ensures index == [Entry(base, 0)] && indexed == 0
      ensures fs.inodes[node].data == [] ==> Valid()
    {
      this.fs, this.node, this.name, this.base := fs, node, name, base;
      maxBytes, interval := opts.Limit(), opts.Interval();
      next, size, index, indexed, sealed, count := base, 0, [Entry(base, 0)], 0, false, 0;
      recs := [];
      new;
      EmptyHasNoBytes();
    }

    method ReadRecordFrom(pos: nat, atLeast: nat) returns (r: Result<Record, Damage>)
      requires node < |fs.inodes|
      ensures r == if pos > |Data()| then Err(Torn) else ReadFrom(Data(), pos, atLeast)
    {
      hide Decode, Number;
      ghost var b := if pos > |Data()| then [] else Data()[pos..];
      var header, short := fs.ReadAt(node, pos, HEADER_LEN);
      if short {
        TooShort(b);
        return Err(Torn);
      }
      var total := ReadLength(header);
      assert header == b[..HEADER_LEN] && header[8..12] == b[8..12];
      if total < HEADER_LEN || total > MAX_RECORD_LEN {
        BadLength(b);
        return Err(Corrupt);
      }
      var buf := header;
      if total > HEADER_LEN {
        var body;
        body, short := fs.ReadAt(node, pos + HEADER_LEN, total - HEADER_LEN);
        if short {
          TooShort(b);
          return Err(Torn);
        }
        buf := buf + body;
      }
      assert buf == b[..total];
      DecodeNeedsOnlyTheRecord(b);
      match Decode(buf)
      case Err(d) =>
        r := Err(d);
      case Ok(rec) =>
        r := if rec.offset < atLeast then Err(Corrupt) else Ok(rec);
    }

    /** `noteIndex`. */
    method NoteIndex(off: nat, pos: nat)
      requires index != [] && indexed == index[|index| - 1].pos
      modifies this`index, this`indexed
      ensures index == Note(old(index), off, pos, interval)
      ensures indexed == index[|index| - 1].pos
    {
      if pos - indexed < interval || pos == 0 {
        return;
      }
      index := index + [Entry(off, pos)];
      indexed := pos;
    }

    /** `scan`: every record is validated, and the index is rebuilt as the pass goes. */
    method ScanFile() returns (f: Found)
      requires node < |fs.inodes|
      requires index == [Entry(base, 0)] && indexed == 0
      modifies this`index, this`indexed
      ensures f == Scan(Data(), base)
      ensures index == IndexOf(base, f.records, interval) && indexed == index[|index| - 1].pos
    {
      hide Scan, IndexOf, ReadFrom, Scanned, Note, EncodeAll, Decode;
      var data := fs.inodes[node].data;
      var end := |data|;
      var pos := 0;
      f := Found([], 0, 0, base, false, false);
      OnlyTheStart(base, interval);
      NothingScanned(data, base);
      while pos < end
        invariant pos <= end && f == Found(f.records, 0, 0, f.next, false, false)
        invariant Scanned(data, base, f.records, pos, f.next)
        invariant index == IndexOf(base, f.records, interval) && indexed == index[|index| - 1].pos
      {
        var r := ReadRecordFrom(pos, f.next);
        ScanTurn(data, base, f.records, pos, f.next);
        if r.Err? {
          return f.(torn := r.error == Torn, corrupt := r.error == Corrupt, valid := pos, discarded := end - pos);
        }
        var one := Rec(r.value.offset, r.value.event);
        NoteIndex(one.offset, pos);
        IndexOfPush(base, f.records, one, interval);
        pos := pos + r.value.len;
        f := f.(next := (one.offset + 1) % TWO64, records := f.records + [one]);
      }
      AllScanned(data, base, f.records, f.next);
      f := f.(valid := end);
    }

    /** `createNamed`. */
    static method CreateNamed(fs: FS, name: string, base: nat, opts: Options) returns (r: Result<Segment, Error>)
      requires fs.Valid()
      modifies fs
      ensures name !in old(fs.live) ==> Blames(old(fs.refused), fs.refused, ErrorOf(r))
      ensures name in old(fs.live) <==> r == Err(Io(Exists))
      ensures old(fs.refused) <= fs.refused
      ensures fs.Valid() && fs.past == old(fs.past) + [fs.View()]
      ensures r.Err? ==> r.error.Io? && fs.View() == old(fs.View())
      ensures r.Ok? ==>
                && fresh(r.value) && r.value.Valid() && r.value.recs == []
                && r.value.fs == fs && r.value.name == name && r.value.base == base
                && r.value.maxBytes == opts.Limit() && r.value.interval == opts.Interval() && !r.value.sealed
                && name !in old(fs.live) && r.value.node == |old(fs.inodes)|
                && fs.View() == Created(old(fs.View()), name)
    {
      var created := fs.Create(name);
      if created.Err? {
        return Err(Io(created.error));
      }
      var s := new Segment(fs, created.value, name, base, opts);
      r := Ok(s);
    }

    /** `openNamed`: scan, and cut the tail off if asked to. */
    static method OpenNamed(fs: FS, name: string, base: nat, opts: Options, truncate: bool)
      returns (r: Result<Segment, Error>, f: Found)
      requires fs.Valid() && base < TWO64
      modifies fs
      ensures name in old(fs.live) ==> Blames(old(fs.refused), fs.refused, ErrorOf(r))
      ensures name !in old(fs.live) <==> r == Err(Io(NotExists))
      ensures old(fs.refused) <= fs.refused
      ensures fs.Valid()
      ensures r.Err? ==> r.error.Io? && fs.View() == old(fs.View())
      ensures r.Err? ==> fs.past == old(fs.past) + [fs.View()] || (truncate && fs.past == old(fs.past) + [fs.View(), fs.View()])
      ensures r.Ok? ==>
                var node := old(fs.live)[name];
                && f == Scan(old(fs.inodes)[node].data, base)
                && f.valid + f.discarded == |old(fs.inodes)[node].data|
                && fs.View() == (if truncate && f.discarded > 0 then Truncated(old(fs.View()), node, f.valid) else old(fs.View()))
                && fs.past == old(fs.past) + (if truncate && f.discarded > 0 then [old(fs.View()), fs.View()] else [fs.View()])
                && fresh(r.value) && r.value.fs == fs && r.value.node == node && r.value.name == name && r.value.base == base
                && r.value.maxBytes == opts.Limit() && r.value.interval == opts.Interval() && !r.value.sealed
                && r.value.recs == f.records && r.value.size == f.valid
                && ((truncate || f.discarded == 0) && Ascending(base, f.records) ==> r.value.Valid())
    {
      hide Scan, EncodeAll, IndexOf, Directory, Ascending;
      var got := fs.Open(name);
      if got.Err? {
        return Err(Io(got.error)), Found([], 0, 0, base, false, false);
      }
      var s := new Segment(fs, got.value, name, base, opts);
      f := s.ScanFile();
      ghost var data := s.Data();
      ScanReencodes(data, base);
      ScanNext(data, base);
      if f.discarded > 0 && truncate {
        var ok := fs.Truncate(s.node, f.valid);
        if !ok {
          return Err(Io(Failed)), f;
        }
      }
      s.size, s.next, s.count := f.valid, f.next, |f.records|;
      s.recs := f.records;
      NextFits(base, f.records);
      r := Ok(s);
    }

    /** One write of whole records, and the bookkeeping once it has landed. A failed one seals the segment. */
    method Land(buf: bytes, offsets: seq<nat>, marks: seq<nat>, ghost more: seq<Rec>)
      returns (ok: bool, ghost stored: nat)
      requires Valid() && !sealed
      requires more != [] && buf == EncodeAll(more) && Ascending(base, recs + more)
      requires |offsets| == |marks| == |more|
      requires forall i :: 0 <= i < |more| ==> offsets[i] == more[i].offset && marks[i] == size + |EncodeAll(more[..i])|
      modifies this, fs
      ensures Blames(old(fs.refused), fs.refused, Refusing(ok))
      ensures Valid() && fs.past == old(fs.past) + [fs.View()]
      ensures stored <= |buf| && fs.View() == Appended(old(fs.View()), node, buf[..stored])
      ensures ok ==> stored == |buf| && !sealed && recs == old(recs) + more
      ensures !ok ==> stored < |buf| && sealed && recs == old(recs)
    {
      hide EncodeAll, IndexOf, Directory, Note, Ascending;
      var n;
      n, ok := fs.Append(node, buf);
      stored := n;
      if !ok {
        sealed := true;
        assert Data()[..size] == old(Data()[..size]);
        return;
      }
      NoteAll(offsets, marks, more);
      size, next, count := size + |buf|, offsets[|offsets| - 1] + 1, count + |marks|;
      EncodeAllConcat(recs, more);
      recs := recs + more;
    }

    method NoteAll(offsets: seq<nat>, marks: seq<nat>, ghost more: seq<Rec>)
      requires |offsets| == |marks| == |more|
      requires index == IndexOf(base, recs, interval) && indexed == index[|index| - 1].pos
      requires forall i :: 0 <= i < |more| ==> offsets[i] == more[i].offset
      requires forall i :: 0 <= i < |more| ==> marks[i] == |EncodeAll(recs)| + |EncodeAll(more[..i])|
      modifies this`index, this`indexed
      ensures index == IndexOf(base, recs + more, interval) && indexed == index[|index| - 1].pos
    {
      hide EncodeAll, IndexOf, Note;
      assert recs + more[..0] == recs;
      for i := 0 to |marks|
        invariant index == IndexOf(base, recs + more[..i], interval) && indexed == index[|index| - 1].pos
      {
        NoteIndex(offsets[i], marks[i]);
        EncodeAllConcat(recs, more[..i]);
        IndexOfPush(base, recs + more[..i], more[i], interval);
        assert recs + more[..i] + [more[i]] == recs + more[..i + 1];
      }
      assert more[..|marks|] == more;
    }

    /** `AppendAll`: as many events as fit, in one write. `stored` counts the bytes that reached the file. */
    method AppendAll(events: seq<Event>) returns (n: nat, first: nat, err: Option<Error>, ghost stored: nat)
      requires Valid() && next + |events| < TWO64
      modifies this, fs
      ensures Blames(old(fs.refused), fs.refused, err)
      ensures Valid()
      ensures old(sealed) ==>
                && n == 0 && err == Some(Sealed) && sealed && recs == old(recs)
                && fs.View() == old(fs.View()) && fs.past == old(fs.past)
      ensures !old(sealed) ==>
                var k := Taken(old(size), maxBytes, events);
                var more := Stamp(old(next), events[..k]);
                && first == old(next)
                && stored <= |EncodeAll(more)|
                && fs.View() == Appended(old(fs.View()), node, EncodeAll(more)[..stored])
                && fs.past == old(fs.past) + (if k == 0 then [] else [fs.View()])
                && (err == Some(Io(Failed)) ==> k > 0 && n == 0 && sealed && stored < |EncodeAll(more)| && recs == old(recs))
                && (err != Some(Io(Failed)) ==>
                      && n == k && !sealed && stored == |EncodeAll(more)| && recs == old(recs) + more
                      && (err.Some? <==> StopsAtRefusal(old(size), maxBytes, events))
                      && (err.Some? ==> n < |events| && err == Some(Refused(Reason(events[n])))))
    {
      hide EncodeAll, Consistent, Taken, StopsAtRefusal;
      stored := 0;
      if sealed {
        return 0, 0, Some(Sealed), 0;
      }
      NextIs();
      first := next;
      var scratch, marks, refused := Stage(size, maxBytes, first, events);
      n := |marks|;
      ghost var more := Stamp(first, events[..n]);
      err := if refused.Some? then Some(Refused(refused.value)) else None;
      if n == 0 {
        NothingStaged(first, events);
        return;
      }
      StampAscends(base, recs, events[..n]);
      assert forall i :: 0 <= i < n ==> more[..i] == Stamp(first, events[..i]);
      var ok;
      ok, stored := Land(scratch, seq(n, i => first + i), marks, more);
      if !ok {
        return 0, first, Some(Io(Failed)), stored;
      }
    }

    lemma NextIs()
      requires Consistent()
      ensures next == NextOf(base, recs) && node < |fs.inodes|
    {
    }

    lemma NothingStaged(first: nat, events: seq<Event>)
      requires Consistent()
      ensures EncodeAll(Stamp(first, events[..0])) == [] && recs + Stamp(first, events[..0]) == recs
      ensures fs.View() == Appended(fs.View(), node, [])
    {
      EmptyHasNoBytes();
      assert Stamp(first, events[..0]) == [];
      assert fs.inodes[node].data + [] == fs.inodes[node].data;
      assert fs.inodes == fs.inodes[node := fs.inodes[node]];
    }

    /** `Append`: one event, whatever room there is. */
    method Append(e: Event) returns (err: Option<Error>, ghost stored: nat)
      requires Valid() && next + 1 < TWO64
      modifies this, fs
      ensures Blames(old(fs.refused), fs.refused, err)
      ensures Valid()
      ensures old(sealed) <==> err == Some(Sealed)
      ensures !old(sealed) && !Framable(e) <==> err == Some(Refused(Reason(e)))
      ensures err.None? || err == Some(Io(Failed)) || err == Some(Sealed) || err == Some(Refused(Reason(e)))
      ensures var code := Encode(old(next), e);
              if err.None? || err == Some(Io(Failed)) then
                && fs.past == old(fs.past) + [fs.View()] && stored <= |code|
                && fs.View() == Appended(old(fs.View()), node, code[..stored])
                && (err.None? <==> stored == |code|) && sealed == err.Some?
                && recs == old(recs) + if err.None? then [Rec(old(next), e)] else []
              else
                fs.past == old(fs.past) && fs.View() == old(fs.View()) && recs == old(recs) && sealed == old(sealed)
    {
      hide EncodeAll, Encode, Framable, Consistent, Taken, StopsAtRefusal;
      TakesOne(size, maxBytes, e);
      NextIs();
      NothingStaged(next, [e]);
      ghost var one := Rec(next, e);
      assert [e][..1] == [e] && Stamp(next, [e]) == [one];
      EncodeAllOne(one);
      var n, first;
      n, first, err, stored := AppendAll([e]);
      assert fs.past == old(fs.past) || fs.past == old(fs.past) + [fs.View()];
    }

    /** `appendAt`: one record at an offset the caller chose, which leaves a hole rather than moving anything. */
    method AppendAt(off: nat, e: Event) returns (err: Option<Error>, ghost stored: nat)
      requires Valid() && !sealed && off + 1 < TWO64
      modifies this, fs
      ensures Blames(old(fs.refused), fs.refused, err)
      ensures Valid()
      ensures off < old(next) ==> err == Some(NotFound)
      ensures off >= old(next) && !Framable(e) ==> err == Some(Refused(Reason(e)))
      ensures off >= old(next) && Framable(e) ==> err == None || err == Some(Io(Failed))
      ensures err != None && err != Some(Io(Failed)) ==>
                recs == old(recs) && !sealed && fs.View() == old(fs.View()) && fs.past == old(fs.past)
      ensures err == None || err == Some(Io(Failed)) ==>
                && fs.past == old(fs.past) + [fs.View()]
                && stored <= RecordLen(e) && fs.View() == Appended(old(fs.View()), node, Encode(off, e)[..stored])
      ensures err == None ==> stored == RecordLen(e) && !sealed && recs == old(recs) + [Rec(off, e)]
      ensures err == Some(Io(Failed)) ==> stored < RecordLen(e) && sealed && recs == old(recs)
    {
      hide EncodeAll, Encode, Consistent, Framable, LaidOut, OutOfRange;
      stored := 0;
      if off < next {
        return Some(NotFound), 0;
      }
      var buf, refused := AppendRecord([], off, e);
      if refused.Some? {
        return Some(Refused(refused.value)), 0;
      }
      ghost var one := Rec(off, e);
      NextIs();
      EncodeAllOne(one);
      PushAscends(base, recs, one);
      EmptyHasNoBytes();
      assert [one][..0] == [];
      var ok;
      ok, stored := Land(buf, [off], [size], [one]);
      err := if ok then None else Some(Io(Failed));
    }

    /** `locateFrom`: the first record at or after `off`, found from the index rather than from the start. */
    method LocateFrom(off: nat) returns (r: Result<(nat, nat), Error>, ghost k: nat)
      requires Valid()
      ensures var from := if off < base then base else off;
              && (from >= next ==> r == Err(NotFound))
              && (from < next ==>
                    var i := Below(recs, from);
                    i < |recs| && r == Ok((Start(recs, i), recs[i].offset)))
      ensures r.Ok? ==>
                && Owns(index, k, if off < base then base else off)
                && index[k].pos <= r.value.0 < index[k].pos + interval + MAX_RECORD_LEN
                && (r.value.1 == off ==> r.value.0 < index[k].pos + interval)
    {
      hide EncodeAll, IndexOf, ReadFrom, Directory;
      var from := if off < base then base else off;
      k := 0;
      if from >= next {
        return Err(NotFound), 0;
      }
      EntriesAscend(base, recs, interval);
      var n := Search(index, (e: Entry) => e.offset > from);
      var entry := index[n - 1];
      k := n - 1;
      ghost var i := EntriesPoint(base, recs, interval, n - 1);
      ghost var tail := Data()[size..];
      assert Data() == EncodeAll(recs) + tail;
      assert recs[..|recs|] == recs;
      var pos: nat, at: nat := entry.pos, entry.offset;
      BelowTheEntry(base, recs, entry, i, from);
      while pos < size
        invariant i <= |recs| && pos == Start(recs, i)
        invariant i < |recs| ==> at <= recs[i].offset
        invariant forall j :: 0 <= j < i ==> recs[j].offset < from
        decreases |recs| - i
      {
        assert i < |recs|;
        ReadAtBoundary(recs, i, tail, at);
        var read := ReadRecordFrom(pos, at);
        if read.value.offset >= from {
          BelowIs(recs, from, i);
          WalkBound(base, recs, interval, from, n - 1);
          return Ok((pos, read.value.offset)), k;
        }
        StartStep(recs, i);
        pos, at := pos + read.value.len, read.value.offset + 1;
        i := i + 1;
      }
      StartsAscend(recs, i, |recs|);
      assert false;
    }

    /** `Read`: the record at `off`, or NotFound if it was compacted away or never here. */
    method Read(off: nat) returns (r: Result<Record, Error>)
      requires Valid()
      ensures var i := Below(recs, off);
              if i < |recs| && recs[i].offset == off then r == Ok(Record(off, recs[i].event, Len(recs[i])))
              else r == Err(NotFound)
    {
      hide EncodeAll, IndexOf, ReadFrom, Directory;
      BelowSplits(base, recs, off);
      var found, _ := LocateFrom(off);
      if found.Err? {
        return Err(found.error);
      }
      if found.value.1 != off {
        return Err(NotFound);
      }
      ghost var i := Below(recs, off);
      ReadAtBoundary(recs, i, Data()[size..], off);
      assert Data() == EncodeAll(recs) + Data()[size..];
      var read := ReadRecordFrom(found.value.0, off);
      r := Ok(read.value);
    }

    method Sync() returns (ok: bool)
      requires Valid()
      modifies fs
      ensures Blames(old(fs.refused), fs.refused, Refusing(ok))
      ensures Valid() && fs.past == old(fs.past) + [fs.View()]
      ensures fs.View() == if ok then FileSynced(old(fs.View()), node) else old(fs.View())
    {
      hide EncodeAll, IndexOf, Directory, Ascending;
      ok := fs.SyncFile(node);
    }

    method Seal()
      requires Valid()
      modifies this`sealed
      ensures Valid() && Settled() && sealed
    {
      sealed := true;
    }

    predicate IsFull()
      reads this
    {
      size >= maxBytes
    }
  }

  lemma BelowTheEntry(base: nat, rs: seq<Rec>, e: Entry, i: nat, from: nat)
    requires Ascending(base, rs) && PointsAt(base, rs, e, i) && e.offset <= from
    ensures i < |rs| ==> e.offset <= rs[i].offset
    ensures forall j :: 0 <= j < i ==> rs[j].offset < from
  {
  }

  /** The staging loop of `AppendAll`: encode until the segment would fill or an event is refused. */
  method Stage(size: nat, limit: nat, first: nat, events: seq<Event>)
    returns (scratch: bytes, marks: seq<nat>, refused: Option<Refusal>)
    requires first + |events| < TWO64
    ensures |marks| == Taken(size, limit, events)
    ensures scratch == EncodeAll(Stamp(first, events[..|marks|]))
    ensures forall i :: 0 <= i < |marks| ==> marks[i] == size + |EncodeAll(Stamp(first, events[..i]))|
    ensures refused.Some? <==> StopsAtRefusal(size, limit, events)
    ensures refused.Some? ==> |marks| < |events| && refused.value == Reason(events[|marks|])
  {
    hide EncodeAll, Encode, Framable, Taken, StopsAtRefusal, Stamp, LaidOut, OutOfRange, Reason;
    scratch, marks, refused := [], [], None;
    StampNothing(first, events);
    while |marks| < |events|
      invariant |marks| <= |events|
      invariant scratch == EncodeAll(Stamp(first, events[..|marks|]))
      invariant forall j :: 0 <= j < |marks| ==> marks[j] == size + |EncodeAll(Stamp(first, events[..j]))|
      invariant Taken(size, limit, events) == |marks| + Taken(size + |scratch|, limit, events[|marks|..])
      invariant StopsAtRefusal(size, limit, events) == StopsAtRefusal(size + |scratch|, limit, events[|marks|..])
    {
      var i := |marks|;
      var pos := size + |scratch|;
      var buf, no := AppendRecord(scratch, first + i, events[i]);
      StageTurn(size + |scratch|, limit, events, i);
      if no.Some? {
        return scratch, marks, no;
      }
      StampPush(first, events, i);
      scratch, marks := buf, marks + [pos];
      if size + |scratch| >= limit {
        return;
      }
    }
    StageEnd(size + |scratch|, limit, events);
  }

  lemma StampNothing(first: nat, events: seq<Event>)
    ensures Stamp(first, events[..0]) == [] && EncodeAll(Stamp(first, events[..0])) == [] && events[0..] == events
  {
    assert Stamp(first, events[..0]) == [];
    EmptyHasNoBytes();
  }

  lemma StageTurn(size: nat, limit: nat, events: seq<Event>, i: nat)
    requires i < |events|
    ensures !Framable(events[i]) ==> Taken(size, limit, events[i..]) == 0 && StopsAtRefusal(size, limit, events[i..])
    ensures Framable(events[i]) && size + RecordLen(events[i]) >= limit ==>
              Taken(size, limit, events[i..]) == 1 && !StopsAtRefusal(size, limit, events[i..])
    ensures Framable(events[i]) && size + RecordLen(events[i]) < limit ==>
              var now := size + RecordLen(events[i]);
              && Taken(size, limit, events[i..]) == 1 + Taken(now, limit, events[i + 1..])
              && StopsAtRefusal(size, limit, events[i..]) == StopsAtRefusal(now, limit, events[i + 1..])
  {
    hide Framable;
    assert events[i..][0] == events[i] && events[i..][1..] == events[i + 1..];
  }

  lemma StageEnd(size: nat, limit: nat, events: seq<Event>)
    ensures Taken(size, limit, events[|events|..]) == 0 && !StopsAtRefusal(size, limit, events[|events|..])
  {
  }

  lemma PushAscends(base: nat, rs: seq<Rec>, r: Rec)
    requires Ascending(base, rs) && NextOf(base, rs) <= r.offset && Writable(r)
    ensures Ascending(base, rs + [r])
  {
    var all := rs + [r];
    forall i | 0 <= i < |all| ensures base <= all[i].offset && Writable(all[i]) {
      assert all[i] == if i < |rs| then rs[i] else r;
    }
  }

  lemma StampPush(first: nat, events: seq<Event>, i: nat)
    requires i < |events|
    ensures EncodeAll(Stamp(first, events[..i + 1]))
            == EncodeAll(Stamp(first, events[..i])) + Encode(first + i, events[i])
    ensures |Encode(first + i, events[i])| == RecordLen(events[i])
  {
    hide EncodeAll, Encode;
    assert Stamp(first, events[..i + 1]) == Stamp(first, events[..i]) + [Rec(first + i, events[i])];
    EncodeAllConcat(Stamp(first, events[..i]), [Rec(first + i, events[i])]);
    EncodeAllOne(Rec(first + i, events[i]));
  }

  /** Stamping on from where the records end keeps them ascending. */
  lemma StampAscends(base: nat, rs: seq<Rec>, events: seq<Event>)
    requires Ascending(base, rs)
    requires NextOf(base, rs) + |events| < TWO64
    requires forall i :: 0 <= i < |events| ==> Framable(events[i])
    ensures Ascending(base, rs + Stamp(NextOf(base, rs), events))
    ensures NextOf(base, rs + Stamp(NextOf(base, rs), events)) == NextOf(base, rs) + |events|
  {
    var new_ := Stamp(NextOf(base, rs), events);
    var all := rs + new_;
    forall i | 0 <= i < |all| ensures base <= all[i].offset && Writable(all[i]) {
      assert all[i] == if i < |rs| then rs[i] else new_[i - |rs|];
    }
  }

  /** The scan's loop invariant: `rs` are the records up to `pos`, and the rest is still to come. */
  ghost predicate Scanned(data: bytes, base: nat, rs: seq<Rec>, pos: nat, next: nat) {
    && pos <= |data|
    && EncodeAll(rs) == data[..pos]
    && Scan(data, base) == After(rs, pos, Scan(data[pos..], next))
  }

  lemma NothingScanned(data: bytes, base: nat)
    ensures Scanned(data, base, [], 0, base)
  {
    hide Scan;
    assert data[0..] == data;
    NothingAfter(Scan(data, base));
  }

  lemma ScanNothing(next: nat)
    ensures Scan([], next) == Found([], 0, 0, next, false, false)
  {
  }

  lemma AllScanned(data: bytes, base: nat, rs: seq<Rec>, next: nat)
    requires Scanned(data, base, rs, |data|, next)
    ensures Scan(data, base) == Found(rs, |data|, 0, next, false, false)
  {
    hide Scan, EncodeAll;
    assert data[|data|..] == [];
    ScanNothing(next);
    assert rs + [] == rs;
  }

  lemma ScanTurn(data: bytes, base: nat, rs: seq<Rec>, pos: nat, next: nat)
    requires Scanned(data, base, rs, pos, next) && pos < |data|
    ensures |EncodeAll(rs)| == pos
    ensures var read := ReadFrom(data, pos, next);
            && (read.Err? ==>
                  Scan(data, base) == Found(rs, pos, |data| - pos, next, read.error == Torn, read.error == Corrupt))
            && (read.Ok? ==>
                  && HEADER_LEN <= read.value.len <= |data| - pos
                  && Scanned(data, base, rs + [Rec(read.value.offset, read.value.event)],
                             pos + read.value.len, (read.value.offset + 1) % TWO64))
  {
    hide Scan, ReadFrom, EncodeAll;
    ScanStep(data, pos, next);
    match ReadFrom(data, pos, next)
    case Err(d) =>
      assert rs + [] == rs;
    case Ok(r) =>
      var one := Rec(r.offset, r.event);
      GrowPrefix(data, pos, next, rs);
      AfterAfter(rs, pos, [one], r.len, Scan(data[pos + r.len..], (r.offset + 1) % TWO64));
  }

  lemma NextFits(base: nat, rs: seq<Rec>)
    requires base < TWO64
    ensures Ascending(base, rs) ==> NextOf(base, rs) % TWO64 == NextOf(base, rs)
  {
  }

  lemma {:induction false} ScanNext(data: bytes, base: nat)
    requires base < TWO64
    ensures Scan(data, base).next == NextOf(base, Scan(data, base).records) % TWO64
    decreases |data|
  {
    hide ReadFrom;
    if data != [] && ReadFrom(data, 0, base).Ok? {
      ReadAdvances(data, 0, base);
      var r := ReadFrom(data, 0, base).value;
      ScanNext(data[r.len..], (r.offset + 1) % TWO64);
    }
  }

  lemma TooShort(b: bytes)
    requires |b| < HEADER_LEN || (HEADER_LEN <= ReadLength(b) <= MAX_RECORD_LEN && ReadLength(b) > |b|)
    ensures Decode(b) == Err(Torn)
  {
  }

  lemma BadLength(b: bytes)
    requires |b| >= HEADER_LEN && (ReadLength(b) < HEADER_LEN || ReadLength(b) > MAX_RECORD_LEN)
    ensures Decode(b) == Err(Corrupt)
  {
  }

  /** One turn of the scan loop. */
  lemma ScanStep(data: bytes, pos: nat, next: nat)
    requires pos < |data|
    ensures match ReadFrom(data, pos, next)
            case Err(d) => Scan(data[pos..], next)
                           == Found([], 0, |data| - pos, next, d == Torn, d == Corrupt)
            case Ok(r) => && HEADER_LEN <= r.len <= |data| - pos
                          && Scan(data[pos..], next)
                             == After([Rec(r.offset, r.event)], r.len, Scan(data[pos + r.len..], (r.offset + 1) % TWO64))
  {
    hide Decode;
    var b := data[pos..];
    assert b[0..] == b;
    assert ReadFrom(b, 0, next) == ReadFrom(data, pos, next);
    match ReadFrom(data, pos, next)
    case Err(d) =>
    case Ok(r) =>
      ReadAdvances(data, pos, next);
      assert b[r.len..] == data[pos + r.len..];
  }

  lemma GrowPrefix(data: bytes, pos: nat, next: nat, rs: seq<Rec>)
    requires pos <= |data| && ReadFrom(data, pos, next).Ok?
    requires EncodeAll(rs) == data[..pos]
    ensures var r := ReadFrom(data, pos, next).value;
            && r.len <= |data| - pos
            && EncodeAll(rs + [Rec(r.offset, r.event)]) == data[..pos + r.len]
  {
    hide Decode, EncodeAll, Encode;
    var r := ReadFrom(data, pos, next).value;
    var one := Rec(r.offset, r.event);
    EncodeDecode(data[pos..]);
    EncodeAllConcat(rs, [one]);
    EncodeAllOne(one);
    assert data[..pos + r.len] == data[..pos] + data[pos..][..r.len];
  }

  /** One event is taken whatever room there is. */
  lemma TakesOne(size: nat, limit: nat, e: Event)
    ensures Taken(size, limit, [e]) == (if Framable(e) then 1 else 0)
    ensures StopsAtRefusal(size, limit, [e]) == !Framable(e)
  {
    hide Framable;
    assert [e][1..] == [];
  }
}
