/**
 * What log/compact.go does to the records of one segment: the last record for each
 * key stays, at its own offset, and everything it supersedes goes.
 */
module Compaction {
  import opened Wrappers
  import opened Bytes
  import opened Events
  import opened Records
  import opened Recovery
  import opened SparseIndex
  import opened Rising

  predicate KeyIn(rs: seq<Rec>, key: bytes) {
    exists j :: 0 <= j < |rs| && rs[j].event.key == key
  }

  function Compacted(rs: seq<Rec>): (kept: seq<Rec>)
    ensures |kept| <= |rs|
  {
    if rs == [] then []
    else if KeyIn(rs[1..], rs[0].event.key) then Compacted(rs[1..])
    else [rs[0]] + Compacted(rs[1..])
  }

  /** The newest record for a key: what a reader of the state would see. */
  function Newest(rs: seq<Rec>, key: bytes): Option<Rec> {
    if rs == [] then None
    else if rs[|rs| - 1].event.key == key then Some(rs[|rs| - 1])
    else Newest(rs[..|rs| - 1], key)
  }

  lemma {:induction false} CompactedComesFrom(rs: seq<Rec>, r: Rec)
    requires r in Compacted(rs)
    ensures r in rs
    decreases |rs|
  {
    if r != rs[0] {
      CompactedComesFrom(rs[1..], r);
    }
  }

  lemma {:induction false} CompactedAscends(base: nat, rs: seq<Rec>)
    requires Ascending(base, rs)
    ensures Ascending(base, Compacted(rs))
    decreases |rs|
  {
    if rs != [] {
      var rest := Compacted(rs[1..]);
      CompactedAscends(rs[0].offset + 1, rs[1..]);
      if !KeyIn(rs[1..], rs[0].event.key) {
        var kept := [rs[0]] + rest;
        assert forall i :: 0 < i < |kept| ==> kept[i] == rest[i - 1];
      }
    }
  }

  /** A record survives exactly when no later one in the segment has its key. */
  lemma {:induction false} SurvivesIffNewest(base: nat, rs: seq<Rec>, i: nat)
    requires Ascending(base, rs) && i < |rs|
    ensures rs[i] in Compacted(rs) <==> !KeyIn(rs[i + 1..], rs[i].event.key)
    decreases |rs|
  {
    var rest := rs[1..];
    if i == 0 {
      if rs[0] in Compacted(rest) {
        CompactedComesFrom(rest, rs[0]);
      }
    } else {
      assert rs[i] == rest[i - 1] && rest[i..] == rs[i + 1..];
      assert rs[i] != rs[0];
      SurvivesIffNewest(rs[0].offset + 1, rest, i - 1);
      assert rs[i] in Compacted(rs) <==> rs[i] in Compacted(rest);
    }
  }

  /** What was dropped is superseded by a record that was kept. */
  lemma {:induction false} DroppedIsSuperseded(base: nat, rs: seq<Rec>, i: nat) returns (j: nat)
    requires Ascending(base, rs) && i < |rs|
    ensures j < |Compacted(rs)|
    ensures Compacted(rs)[j].offset >= rs[i].offset && Compacted(rs)[j].event.key == rs[i].event.key
    decreases |rs|
  {
    var rest := rs[1..];
    var dropped := KeyIn(rest, rs[0].event.key);
    if i == 0 && !dropped {
      j := 0;
    } else {
      var m :| 0 <= m < |rest| && rest[m].event.key == rs[i].event.key && rest[m].offset >= rs[i].offset;
      j := DroppedIsSuperseded(rs[0].offset + 1, rest, m);
      if !dropped {
        j := j + 1;
      }
    }
  }

  /** The last record always survives, so the segment's next offset does not move. */
  lemma {:induction false} LastSurvives(base: nat, rs: seq<Rec>)
    ensures rs != [] ==> Compacted(rs) != [] && Compacted(rs)[|Compacted(rs)| - 1] == rs[|rs| - 1]
    ensures NextOf(base, Compacted(rs)) == NextOf(base, rs)
    decreases |rs|
  {
    if |rs| > 1 {
      LastSurvives(base, rs[1..]);
    } else if |rs| == 1 {
      assert Compacted(rs) == [rs[0]] + Compacted(rs[1..]) == rs;
    }
  }

  lemma {:induction false} SameKeys(rs: seq<Rec>, key: bytes)
    ensures KeyIn(Compacted(rs), key) <==> KeyIn(rs, key)
    decreases |rs|
  {
    if rs != [] {
      var rest := rs[1..];
      SameKeys(rest, key);
      SameKeys(rest, rs[0].event.key);
      assert KeyIn(rs, key) <==> rs[0].event.key == key || KeyIn(rest, key) by {
        KeyInCons(rs[0], rest, key);
        assert rs == [rs[0]] + rest;
      }
      if !KeyIn(rest, rs[0].event.key) {
        KeyInCons(rs[0], Compacted(rest), key);
      }
    }
  }

  lemma KeyInCons(r: Rec, rs: seq<Rec>, key: bytes)
    ensures KeyIn([r] + rs, key) <==> r.event.key == key || KeyIn(rs, key)
  {
    var all := [r] + rs;
    if KeyIn(rs, key) {
      var j :| 0 <= j < |rs| && rs[j].event.key == key;
      assert all[j + 1].event.key == key;
    }
    if r.event.key == key {
      assert all[0].event.key == key;
    }
    if KeyIn(all, key) && r.event.key != key {
      var j :| 0 <= j < |all| && all[j].event.key == key;
      assert rs[j - 1].event.key == key;
    }
  }

  /** Compacting twice drops nothing more. */
  lemma {:induction false} CompactedTwice(rs: seq<Rec>)
    ensures Compacted(Compacted(rs)) == Compacted(rs)
    decreases |rs|
  {
    if rs != [] {
      CompactedTwice(rs[1..]);
      if !KeyIn(rs[1..], rs[0].event.key) {
        var kept := Compacted(rs);
        assert kept[1..] == Compacted(rs[1..]);
        SameKeys(rs[1..], rs[0].event.key);
      }
    }
  }

  lemma {:induction false} NewestOfCons(r: Rec, rs: seq<Rec>, key: bytes)
    ensures Newest([r] + rs, key)
            == if KeyIn(rs, key) then Newest(rs, key) else if r.event.key == key then Some(r) else None
    decreases |rs|
  {
    var all := [r] + rs;
    if rs == [] {
      assert all[..0] == [];
    } else {
      var n := |rs| - 1;
      assert all[|all| - 1] == rs[n] && all[..|all| - 1] == [r] + rs[..n];
      NewestOfCons(r, rs[..n], key);
      if rs[n].event.key != key && KeyIn(rs, key) {
        var j :| 0 <= j < |rs| && rs[j].event.key == key;
        assert rs[..n][j].event.key == key;
      }
      if KeyIn(rs[..n], key) {
        var j :| 0 <= j < n && rs[..n][j].event.key == key;
        assert rs[j].event.key == key;
      }
    }
  }

  /** Compaction preserves meaning: the newest record for every key is the same record. */
  lemma {:induction false} NewestSurvives(rs: seq<Rec>, key: bytes)
    ensures Newest(Compacted(rs), key) == Newest(rs, key)
    decreases |rs|
  {
    if rs != [] {
      var rest := rs[1..];
      assert rs == [rs[0]] + rest;
      NewestSurvives(rest, key);
      NewestOfCons(rs[0], rest, key);
      SameKeys(rest, key);
      if KeyIn(rest, rs[0].event.key) {
        if !KeyIn(rest, key) {
          NoNewest(rest, key);
        }
      } else {
        NewestOfCons(rs[0], Compacted(rest), key);
      }
    }
  }

  lemma {:induction false} NoNewest(rs: seq<Rec>, key: bytes)
    requires !KeyIn(rs, key)
    ensures Newest(rs, key) == None
    decreases |rs|
  {
    if rs != [] {
      var n := |rs| - 1;
      assert forall j :: 0 <= j < n ==> rs[..n][j] == rs[j];
      NoNewest(rs[..n], key);
    }
  }

  lemma {:induction false} NewestOfConcat(a: seq<Rec>, b: seq<Rec>, key: bytes)
    ensures Newest(a + b, key) == if Newest(b, key).Some? then Newest(b, key) else Newest(a, key)
    decreases |b|
  {
    if b == [] {
      assert a + b == a;
    } else {
      var n := |b| - 1;
      assert (a + b)[|a + b| - 1] == b[n] && (a + b)[..|a + b| - 1] == a + b[..n];
      NewestOfConcat(a, b[..n], key);
    }
  }

  /** A compaction that drops no record changes nothing. */
  lemma {:induction false} NothingDropped(rs: seq<Rec>)
    requires |Compacted(rs)| == |rs|
    ensures Compacted(rs) == rs
    decreases |rs|
  {
    if rs != [] {
      NothingDropped(rs[1..]);
    }
  }

  // ---- The way log/compact.go computes it ----

  /** The map `survivorsOf` fills: for each key, the offset of its last record so far. */
  function NewestMap(rs: seq<Rec>): map<bytes, nat> {
    if rs == [] then map[]
    else NewestMap(rs[..|rs| - 1])[rs[|rs| - 1].event.key := rs[|rs| - 1].offset]
  }

  /** The offsets to keep. */
  function Survivors(rs: seq<Rec>): set<nat> {
    set r | r in Compacted(rs) :: r.offset
  }

  /** The records at the given offsets, in order: what `writeCompacted` copies. */
  function KeepIn(rs: seq<Rec>, offsets: set<nat>): seq<Rec> {
    if rs == [] then []
    else KeepIn(rs[..|rs| - 1], offsets) + if rs[|rs| - 1].offset in offsets then [rs[|rs| - 1]] else []
  }

  lemma {:induction false} NewestMapIsNewest(rs: seq<Rec>, key: bytes)
    ensures key in NewestMap(rs) <==> Newest(rs, key).Some?
    ensures key in NewestMap(rs) ==> NewestMap(rs)[key] == Newest(rs, key).value.offset
    decreases |rs|
  {
    if rs != [] {
      NewestMapIsNewest(rs[..|rs| - 1], key);
    }
  }

  lemma {:induction false} NewestIsIn(rs: seq<Rec>, key: bytes)
    requires Newest(rs, key).Some?
    ensures Newest(rs, key).value in rs && Newest(rs, key).value.event.key == key
    decreases |rs|
  {
    if rs[|rs| - 1].event.key != key {
      NewestIsIn(rs[..|rs| - 1], key);
    }
  }

  lemma {:induction false} LastForKeyIsNewest(rs: seq<Rec>, i: nat)
    requires i < |rs| && !KeyIn(rs[i + 1..], rs[i].event.key)
    ensures Newest(rs, rs[i].event.key) == Some(rs[i])
    decreases |rs|
  {
    var n := |rs| - 1;
    if i < n {
      assert rs[i + 1..][n - i - 1] == rs[n];
      assert rs[..n][i] == rs[i];
      assert rs[..n][i + 1..] == rs[i + 1..][..n - i - 1];
      LastForKeyIsNewest(rs[..n], i);
    }
  }

  /** The values of the map are the offsets of the compacted records. */
  lemma MapValuesSurvive(base: nat, rs: seq<Rec>)
    requires Ascending(base, rs)
    ensures NewestMap(rs).Values == Survivors(rs)
  {
    hide Ascending, Compacted, KeyIn;
    var m := NewestMap(rs);
    forall off ensures off in m.Values <==> off in Survivors(rs) {
      if off in m.Values {
        var key :| key in m && m[key] == off;
        NewestMapIsNewest(rs, key);
        NewestSurvives(rs, key);
        NewestIsIn(Compacted(rs), key);
      }
      if off in Survivors(rs) {
        var r :| r in Compacted(rs) && r.offset == off;
        CompactedComesFrom(rs, r);
        var i :| 0 <= i < |rs| && rs[i] == r;
        SurvivesIffNewest(base, rs, i);
        LastForKeyIsNewest(rs, i);
        NewestMapIsNewest(rs, r.event.key);
        assert m[r.event.key] == off;
      }
    }
  }

  lemma {:induction false} OffsetsCount(base: nat, rs: seq<Rec>)
    requires Ascending(base, rs)
    ensures |set r | r in rs :: r.offset| == |rs|
    decreases |rs|
  {
    var all := set r | r in rs :: r.offset;
    if rs == [] {
      assert all == {};
    } else {
      var n := |rs| - 1;
      var init := rs[..n];
      assert rs == init + [rs[n]];
      LastIsBelow(base, init, rs[n]);
      OffsetsCount(base, init);
      var some := set r | r in init :: r.offset;
      assert all == some + {rs[n].offset};
      assert rs[n].offset !in some;
    }
  }

  /** As many offsets survive as records. */
  lemma SurvivorCount(base: nat, rs: seq<Rec>)
    requires Ascending(base, rs)
    ensures |Survivors(rs)| == |Compacted(rs)|
  {
    CompactedAscends(base, rs);
    OffsetsCount(base, Compacted(rs));
  }

  lemma {:induction false} KeepInSurvives(rs: seq<Rec>, offsets: set<nat>, r: Rec)
    ensures r in KeepIn(rs, offsets) <==> r in rs && r.offset in offsets
    decreases |rs|
  {
    if rs != [] {
      KeepInSurvives(rs[..|rs| - 1], offsets, r);
      assert rs == rs[..|rs| - 1] + [rs[|rs| - 1]];
    }
  }

  lemma {:induction false} KeepInAscends(base: nat, rs: seq<Rec>, offsets: set<nat>)
    requires Ascending(base, rs)
    ensures Ascending(base, KeepIn(rs, offsets))
    decreases |rs|
  {
    if rs != [] {
      var n := |rs| - 1;
      var init := rs[..n];
      assert rs == init + [rs[n]];
      LastIsBelow(base, init, rs[n]);
      KeepInAscends(base, init, offsets);
      var kept := KeepIn(init, offsets);
      forall j | 0 <= j < |kept| ensures kept[j].offset < rs[n].offset {
        KeepInSurvives(init, offsets, kept[j]);
      }
    }
  }

  /** The first of an ascending list is the least, and the rest are all the others. */
  function OffsetsOf(rs: seq<Rec>): (a: seq<nat>)
    ensures |a| == |rs| && forall i :: 0 <= i < |a| ==> a[i] == rs[i].offset
  {
    seq(|rs|, i requires 0 <= i < |rs| => rs[i].offset)
  }

  lemma OffsetsWithin(a: seq<Rec>, b: seq<Rec>)
    requires forall r :: r in a ==> r in b
    ensures forall x :: x in OffsetsOf(a) ==> x in OffsetsOf(b)
  {
    forall x | x in OffsetsOf(a) ensures x in OffsetsOf(b) {
      var i :| 0 <= i < |a| && OffsetsOf(a)[i] == x;
      assert a[i] in b;
      var j :| 0 <= j < |b| && b[j] == a[i];
      assert OffsetsOf(b)[j] == x;
    }
  }

  lemma AscendingListsAreUnique(base: nat, a: seq<Rec>, b: seq<Rec>)
    requires Ascending(base, a) && Ascending(base, b)
    requires forall r :: r in a <==> r in b
    ensures a == b
  {
    OffsetsWithin(a, b);
    OffsetsWithin(b, a);
    RisingIsUnique(OffsetsOf(a), OffsetsOf(b));
    forall i | 0 <= i < |a| ensures a[i] == b[i] {
      assert a[i] in b;
      var j :| 0 <= j < |b| && b[j] == a[i];
      assert OffsetsOf(b)[j] == OffsetsOf(a)[i] == OffsetsOf(b)[i];
    }
  }

  /** Copying the records at the surviving offsets is compaction. */
  lemma CopyingSurvivors(base: nat, rs: seq<Rec>)
    requires Ascending(base, rs)
    ensures KeepIn(rs, Survivors(rs)) == Compacted(rs)
  {
    hide KeepIn, Compacted;
    KeepInAscends(base, rs, Survivors(rs));
    CompactedAscends(base, rs);
    forall r ensures r in KeepIn(rs, Survivors(rs)) <==> r in Compacted(rs) {
      KeepInSurvives(rs, Survivors(rs), r);
      if r in Compacted(rs) {
        CompactedComesFrom(rs, r);
      }
      if r in rs && r.offset in Survivors(rs) {
        var q :| q in Compacted(rs) && q.offset == r.offset;
        CompactedComesFrom(rs, q);
        assert q == r;
      }
    }
    AscendingListsAreUnique(base, KeepIn(rs, Survivors(rs)), Compacted(rs));
  }
}
