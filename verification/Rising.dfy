/**
 * Strictly rising lists of offsets: segment bases, index entries, the names in a listing,
 * the records of a segment. What holds of one holds of them all.
 */
module Rising {
  import opened Wrappers
  import opened Bytes
  import opened Names
  import opened Disks

  predicate Rises(a: seq<nat>) {
    forall i, j :: 0 <= i < j < |a| ==> a[i] < a[j]
  }

  lemma LeastAndRest(a: seq<nat>, x: nat)
    requires Rises(a) && a != []
    ensures Rises(a[1..]) && (x in a ==> a[0] <= x)
    ensures x in a[1..] <==> x in a && x != a[0]
  {
    if x in a {
      var i :| 0 <= i < |a| && a[i] == x;
      if i > 0 {
        assert a[1..][i - 1] == x;
      }
    }
    if x in a[1..] {
      var i :| 0 <= i < |a| - 1 && a[1..][i] == x;
      assert a[i + 1] == x;
    }
  }

  lemma {:induction false} RisingIsUnique(a: seq<nat>, b: seq<nat>)
    requires Rises(a) && Rises(b)
    requires forall x :: x in a <==> x in b
    ensures a == b
    decreases |a|
  {
    hide Rises;
    assert a == [] || a[0] in b;
    assert b == [] || b[0] in a;
    if a != [] && b != [] {
      LeastAndRest(a, b[0]);
      LeastAndRest(b, a[0]);
      forall x ensures x in a[1..] <==> x in b[1..] {
        if x in a[1..] || x in b[1..] {
          LeastAndRest(a, x);
          LeastAndRest(b, x);
        }
      }
      RisingIsUnique(a[1..], b[1..]);
      assert a == [a[0]] + a[1..] && b == [b[0]] + b[1..];
    }
  }

  /** `sort.Search`: where a list that passes a point for good passes it. */
  method Search<T>(s: seq<T>, past: T -> bool) returns (n: nat)
    requires forall i, j :: 0 <= i < j < |s| && past(s[i]) ==> past(s[j])
    ensures n <= |s|
    ensures forall i :: 0 <= i < n ==> !past(s[i])
    ensures forall i :: n <= i < |s| ==> past(s[i])
  {
    n := 0;
    var hi := |s|;
    while n < hi
      invariant n <= hi <= |s|
      invariant forall i :: 0 <= i < n ==> !past(s[i])
      invariant forall i :: hi <= i < |s| ==> past(s[i])
    {
      var mid := (n + hi) / 2;
      if past(s[mid]) {
        hi := mid;
      } else {
        n := mid + 1;
      }
    }
  }

  /** The offsets that a directory's names are the names of. */
  ghost predicate Listed(names: seq<string>, offsets: seq<nat>, parse: string -> Option<nat>, print_: nat -> string) {
    && Rises(offsets)
    && (forall i :: 0 <= i < |offsets| ==> offsets[i] < TWO64 && print_(offsets[i]) in names)
    && (forall name :: name in names && parse(name).Some? ==> parse(name).value in offsets)
  }

  /** The listing is in order and the names are zero-padded, so the offsets come out ascending. */
  method OffsetsIn(names: seq<string>, parse: string -> Option<nat>, print_: nat -> string) returns (offsets: seq<nat>)
    requires Sorted(names)
    requires forall name :: parse(name).Some? ==> parse(name).value < TWO64 && print_(parse(name).value) == name
    requires forall a: nat, b: nat :: a < TWO64 && b < TWO64 && Before(print_(a), print_(b)) ==> a < b
    ensures Listed(names, offsets, parse, print_)
  {
    hide Before;
    offsets := [];
    for k := 0 to |names|
      invariant forall i :: 0 <= i < |offsets| ==> offsets[i] < TWO64 && print_(offsets[i]) in names[..k]
      invariant Rises(offsets)
      invariant forall i :: 0 <= i < k && parse(names[i]).Some? ==> parse(names[i]).value in offsets
    {
      assert names[..k + 1] == names[..k] + [names[k]];
      var parsed := parse(names[k]);
      if parsed.Some? {
        forall i | 0 <= i < |offsets| ensures offsets[i] < parsed.value {
          var m :| 0 <= m < k && names[m] == print_(offsets[i]);
          assert Before(names[m], names[k]);
        }
        offsets := offsets + [parsed.value];
      }
    }
    assert names[..|names|] == names;
  }
}
