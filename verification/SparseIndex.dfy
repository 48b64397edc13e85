/**
 * The sparse index of log/segment.go: what `noteIndex` accumulates, and why a lookup
 * that starts from it is a linear search that skipped most of the file.
 */
module SparseIndex {
  import opened Bytes
  import opened Events
  import opened Records
  import opened Recovery

  datatype Entry = Entry(offset: nat, pos: nat)

  /** Where record `i` begins. */
  function Start(rs: seq<Rec>, i: nat): nat
    requires i <= |rs|
  {
    |EncodeAll(rs[..i])|
  }

  function Note(ix: seq<Entry>, off: nat, pos: nat, interval: nat): seq<Entry>
    requires ix != []
  {
    if pos - ix[|ix| - 1].pos < interval || pos == 0 then ix else ix + [Entry(off, pos)]
  }

  /** The index of a segment is a function of its records, however it came to hold them. */
  function IndexOf(base: nat, rs: seq<Rec>, interval: nat): (ix: seq<Entry>)
    ensures ix != []
  {
    if rs == [] then [Entry(base, 0)] else
    var n := |rs| - 1;
    Note(IndexOf(base, rs[..n], interval), rs[n].offset, Start(rs, n), interval)
  }

  lemma IndexOfPush(base: nat, rs: seq<Rec>, r: Rec, interval: nat)
    ensures IndexOf(base, rs + [r], interval)
            == Note(IndexOf(base, rs, interval), r.offset, |EncodeAll(rs)|, interval)
  {
    assert (rs + [r])[..|rs|] == rs;
  }

  /** The entry a lookup of `off` starts from. */
  ghost predicate Owns(ix: seq<Entry>, k: nat, off: nat) {
    k < |ix| && ix[k].offset <= off && forall j :: k < j < |ix| ==> ix[j].offset > off
  }

  /** Entry `e` points at record `i`, or at the start of the file. */
  ghost predicate PointsAt(base: nat, rs: seq<Rec>, e: Entry, i: nat) {
    i <= |rs| && e.pos == Start(rs, i) && if i == 0 then e.offset == base else i < |rs| && e.offset == rs[i].offset
  }

  lemma StartsAgree(rs: seq<Rec>, r: Rec, i: nat)
    requires i <= |rs|
    ensures Start(rs + [r], i) == Start(rs, i)
  {
    assert (rs + [r])[..i] == rs[..i];
  }

  lemma StartStep(rs: seq<Rec>, i: nat)
    requires i < |rs|
    ensures Start(rs, i + 1) == Start(rs, i) + Len(rs[i])
  {
    hide Encode;
    EncodeAllAt(rs, i);
  }

  lemma {:induction false} StartsAscend(rs: seq<Rec>, i: nat, j: nat)
    requires i <= j <= |rs|
    ensures Start(rs, i) + (j - i) <= Start(rs, j)
    decreases j
  {
    hide EncodeAll, Len;
    if i < j {
      StartsAscend(rs, i, j - 1);
      StartStep(rs, j - 1);
    }
  }

  lemma LastIsBelow(base: nat, rs: seq<Rec>, r: Rec)
    requires Ascending(base, rs + [r])
    ensures Ascending(base, rs)
    ensures forall i :: 0 <= i < |rs| ==> rs[i].offset < r.offset
    ensures base <= r.offset
  {
    var all := rs + [r];
    assert all[|rs|] == r;
    assert forall i :: 0 <= i < |rs| ==> all[i] == rs[i];
  }

  /** Entries ascend in offset and position, within the records they index. */
  ghost predicate Climbs(base: nat, rs: seq<Rec>, ix: seq<Entry>) {
    && ix != [] && ix[0] == Entry(base, 0)
    && (forall k, l :: 0 <= k < l < |ix| ==> ix[k].offset < ix[l].offset && ix[k].pos < ix[l].pos)
    && ix[|ix| - 1].pos <= |EncodeAll(rs)|
    && (|ix| > 1 ==> rs != [] && ix[|ix| - 1].offset <= rs[|rs| - 1].offset)
  }

  lemma NoteClimbs(base: nat, rs: seq<Rec>, r: Rec, ix: seq<Entry>, interval: nat)
    requires Ascending(base, rs + [r]) && interval > 0
    requires Climbs(base, rs, ix)
    ensures Climbs(base, rs + [r], Note(ix, r.offset, |EncodeAll(rs)|, interval))
  {
    hide EncodeAll, Writable;
    LastIsBelow(base, rs, r);
    EncodeAllConcat(rs, [r]);
    if rs == [] {
      EmptyHasNoBytes();
    }
    assert (rs + [r])[|rs + [r]| - 1] == r;
    if |ix| > 1 {
      assert rs[|rs| - 1].offset < r.offset;
    } else {
      assert |EncodeAll(rs)| > 0 ==> rs != [];
    }
  }

  lemma {:induction false} EntriesAscend(base: nat, rs: seq<Rec>, interval: nat)
    requires Ascending(base, rs) && interval > 0
    ensures Climbs(base, rs, IndexOf(base, rs, interval))
    decreases |rs|
  {
    hide EncodeAll, Climbs, Note;
    if rs != [] {
      var n := |rs| - 1;
      assert rs == rs[..n] + [rs[n]];
      LastIsBelow(base, rs[..n], rs[n]);
      EntriesAscend(base, rs[..n], interval);
      IndexOfPush(base, rs[..n], rs[n], interval);
      NoteClimbs(base, rs[..n], rs[n], IndexOf(base, rs[..n], interval), interval);
    } else {
      OnlyTheStart(base, interval);
    }
  }

  /** No two entries are closer than the interval: the index is as sparse as it was asked to be. */
  lemma {:induction false} EntriesApart(base: nat, rs: seq<Rec>, interval: nat, k: nat)
    requires k + 1 < |IndexOf(base, rs, interval)|
    ensures var ix := IndexOf(base, rs, interval);
            ix[k].pos + interval <= ix[k + 1].pos && ix[k + 1].pos > 0
    decreases |rs|
  {
    hide EncodeAll;
    if rs != [] {
      var before := IndexOf(base, rs[..|rs| - 1], interval);
      if k + 1 < |before| {
        EntriesApart(base, rs[..|rs| - 1], interval, k);
      }
    }
  }

  lemma OnlyTheStart(base: nat, interval: nat)
    ensures IndexOf(base, [], interval) == [Entry(base, 0)] && Climbs(base, [], [Entry(base, 0)])
  {
  }

  lemma {:induction false} EntriesPoint(base: nat, rs: seq<Rec>, interval: nat, k: nat) returns (i: nat)
    requires Ascending(base, rs) && interval > 0
    requires k < |IndexOf(base, rs, interval)|
    ensures PointsAt(base, rs, IndexOf(base, rs, interval)[k], i)
    decreases |rs|
  {
    hide EncodeAll;
    if rs == [] {
      i := 0;
      OnlyTheStart(base, interval);
      assert rs[..0] == rs;
      EmptyHasNoBytes();
    } else {
      var n := |rs| - 1;
      var init := rs[..n];
      assert rs == init + [rs[n]];
      LastIsBelow(base, init, rs[n]);
      var ix := IndexOf(base, init, interval);
      if k < |ix| {
        i := EntriesPoint(base, init, interval, k);
        StartsAgree(init, rs[n], i);
      } else {
        i := n;
        if n == 0 {
          assert rs[..0] == [];
          EmptyHasNoBytes();
        }
      }
    }
  }

  lemma EmptyHasNoBytes()
    ensures EncodeAll([]) == []
  {
  }

  /** From the entry owning a record's offset, the record begins within one interval. */
  lemma {:induction false} WalkToRecord(base: nat, rs: seq<Rec>, interval: nat, i: nat, k: nat)
    requires Ascending(base, rs) && interval > 0
    requires i < |rs| && Owns(IndexOf(base, rs, interval), k, rs[i].offset)
    ensures IndexOf(base, rs, interval)[k].pos <= Start(rs, i) < IndexOf(base, rs, interval)[k].pos + interval
    decreases |rs|
  {
    hide EncodeAll, Writable;
    var n := |rs| - 1;
    var init := rs[..n];
    assert rs == init + [rs[n]];
    LastIsBelow(base, init, rs[n]);
    EntriesAscend(base, init, interval);
    if i < n {
      hide Climbs;
      OwnerBeforeLast(base, init, rs[n], interval, init[i].offset, k);
      WalkToRecord(base, init, interval, i, k);
      StartsAgree(init, rs[n], i);
    } else {
      WalkToLast(base, init, rs[n], interval, k);
    }
  }

  lemma OwnerBeforeLast(base: nat, rs: seq<Rec>, r: Rec, interval: nat, off: nat, k: nat)
    requires Ascending(base, rs + [r]) && interval > 0 && off < r.offset
    requires Owns(IndexOf(base, rs + [r], interval), k, off)
    ensures Owns(IndexOf(base, rs, interval), k, off)
    ensures IndexOf(base, rs + [r], interval)[k] == IndexOf(base, rs, interval)[k]
  {
    hide EncodeAll, IndexOf;
    IndexOfPush(base, rs, r, interval);
    var ix, grown := IndexOf(base, rs, interval), IndexOf(base, rs + [r], interval);
    assert forall j :: 0 <= j < |ix| ==> grown[j] == ix[j];
  }

  lemma WalkToLast(base: nat, rs: seq<Rec>, r: Rec, interval: nat, k: nat)
    requires Ascending(base, rs + [r]) && interval > 0
    requires Owns(IndexOf(base, rs + [r], interval), k, r.offset)
    ensures IndexOf(base, rs + [r], interval)[k].pos <= Start(rs + [r], |rs|)
            < IndexOf(base, rs + [r], interval)[k].pos + interval
  {
    hide EncodeAll, IndexOf;
    var ix := IndexOf(base, rs, interval);
    LastIsBelow(base, rs, r);
    EntriesAscend(base, rs, interval);
    IndexOfPush(base, rs, r, interval);
    assert (rs + [r])[..|rs|] == rs;
    var grown := IndexOf(base, rs + [r], interval);
    assert |ix| > 1 ==> rs[|rs| - 1].offset < r.offset;
    assert grown[|grown| - 1].offset <= r.offset;
    assert k == |grown| - 1;
  }

  /** How many records lie below `off`: the index of the first at or after it. */
  function Below(rs: seq<Rec>, off: nat): (n: nat)
    ensures n <= |rs|
  {
    if rs == [] || rs[0].offset >= off then 0 else 1 + Below(rs[1..], off)
  }

  lemma {:induction false} BelowSplits(base: nat, rs: seq<Rec>, off: nat)
    requires Ascending(base, rs)
    ensures forall i :: 0 <= i < |rs| ==> (i < Below(rs, off) <==> rs[i].offset < off)
    decreases |rs|
  {
    if rs != [] && rs[0].offset < off {
      BelowSplits(rs[0].offset + 1, rs[1..], off);
      assert forall i :: 0 < i < |rs| ==> rs[i] == rs[1..][i - 1];
    }
  }

  lemma InOrder(base: nat, rs: seq<Rec>, i: nat, j: nat)
    requires Ascending(base, rs) && i < |rs| && j < |rs| && rs[i].offset <= rs[j].offset
    ensures i <= j
  {
  }

  lemma {:induction false} BelowIs(rs: seq<Rec>, off: nat, i: nat)
    requires i <= |rs|
    requires forall j :: 0 <= j < i ==> rs[j].offset < off
    requires i < |rs| ==> rs[i].offset >= off
    ensures Below(rs, off) == i
    decreases |rs|
  {
    if i > 0 {
      BelowIs(rs[1..], off, i - 1);
    }
  }

  /**
   * A lookup walks forward from its entry by less than the interval when the offset is
   * there, and by less than the interval and one record when compaction removed it.
   */
  lemma WalkBound(base: nat, rs: seq<Rec>, interval: nat, off: nat, k: nat)
    requires Ascending(base, rs) && interval > 0
    requires Owns(IndexOf(base, rs, interval), k, off)
    requires Below(rs, off) < |rs|
    ensures var entry, i := IndexOf(base, rs, interval)[k], Below(rs, off);
            && entry.pos <= Start(rs, i)
            && (rs[i].offset == off ==> Start(rs, i) < entry.pos + interval)
            && Start(rs, i) < entry.pos + interval + MAX_RECORD_LEN
  {
    hide EncodeAll, IndexOf;
    var i := Below(rs, off);
    var ix := IndexOf(base, rs, interval);
    EntriesAscend(base, rs, interval);
    BelowSplits(base, rs, off);
    var m := EntriesPoint(base, rs, interval, k);
    if m > 0 {
      InOrder(base, rs, m, i);
    }
    StartsAscend(rs, m, i);
    if rs[i].offset == off {
      WalkToRecord(base, rs, interval, i, k);
    }
    if i > 0 {
      var l := FindOwner(ix, base, rs[i - 1].offset);
      WalkToRecord(base, rs, interval, i - 1, l);
      assert l <= k;
      StartStep(rs, i - 1);
    } else {
      assert rs[..0] == [];
      EmptyHasNoBytes();
    }
  }

  lemma {:induction false} FindOwner(ix: seq<Entry>, base: nat, off: nat) returns (k: nat)
    requires ix != [] && ix[0].offset == base <= off
    requires forall k, l :: 0 <= k < l < |ix| ==> ix[k].offset < ix[l].offset
    ensures Owns(ix, k, off)
    decreases |ix|
  {
    k := |ix| - 1;
    if ix[k].offset > off {
      k := FindOwner(ix[..k], base, off);
    }
  }
}
