/**
 * File names: `segmentName` and `parseSegmentName` of log/segment.go, `snapshotName`
 * and `parseSnapshotName` of log/snapshot.go. A name is twenty zero-padded digits in a
 * fixed wrapping, so the names of a kind and the offsets are in one-to-one
 * correspondence, and listing order is numeric order.
 */
module Names {
  import opened Wrappers
  import opened Bytes

  const SEGMENT_DIGITS: nat := 20
  const SEGMENT_SUFFIX: string := ".log"
  const SNAPSHOT_PREFIX: string := "snapshot-"
  const SNAPSHOT_SUFFIX: string := ".state"
  const COMPACTING_SUFFIX: string := ".compacting"
  const COMMITS_FILE: string := "commits.groups"

  function Pow10(n: nat): (p: nat)
    ensures p > 0
  {
    if n == 0 then 1 else 10 * Pow10(n - 1)
  }

  function Digit(d: nat): char
    requires d < 10
  {
    ['0', '1', '2', '3', '4', '5', '6', '7', '8', '9'][d]
  }

  predicate IsDigit(c: char) {
    '0' <= c <= '9'
  }

  function DigitValue(c: char): (d: nat)
    requires IsDigit(c)
    ensures d < 10
  {
    (c as int) - ('0' as int)
  }

  /** The low `width` decimal digits of `n`, most significant first. */
  function Digits(n: nat, width: nat): (s: string)
    ensures |s| == width
    ensures forall i :: 0 <= i < |s| ==> IsDigit(s[i])
  {
    if width == 0 then "" else Digits(n / 10, width - 1) + [Digit(n % 10)]
  }

  function Value(s: string): nat
    requires forall i :: 0 <= i < |s| ==> IsDigit(s[i])
  {
    if s == "" then 0 else 10 * Value(s[..|s| - 1]) + DigitValue(s[|s| - 1])
  }

  predicate AllDigits(s: string) {
    forall i :: 0 <= i < |s| ==> IsDigit(s[i])
  }

  /** `strconv.ParseUint(s, 10, 64)` on a string of exactly twenty characters. */
  function ParseOffset(s: string): Option<nat> {
    if |s| == SEGMENT_DIGITS && AllDigits(s) && Value(s) < TWO64 then Some(Value(s)) else None
  }

  predicate EndsWith(s: string, suffix: string) {
    |s| >= |suffix| && s[|s| - |suffix|..] == suffix
  }

  function SegmentName(base: nat): string {
    Digits(base, SEGMENT_DIGITS) + SEGMENT_SUFFIX
  }

  function ParseSegmentName(name: string): Option<nat> {
    if EndsWith(name, SEGMENT_SUFFIX) then ParseOffset(name[..|name| - |SEGMENT_SUFFIX|]) else None
  }

  function SnapshotName(off: nat): string {
    SNAPSHOT_PREFIX + Digits(off, SEGMENT_DIGITS) + SNAPSHOT_SUFFIX
  }

  function ParseSnapshotName(name: string): Option<nat> {
    if !(SNAPSHOT_PREFIX <= name) then None else
    var rest := name[|SNAPSHOT_PREFIX|..];
    if EndsWith(rest, SNAPSHOT_SUFFIX) then ParseOffset(rest[..|rest| - |SNAPSHOT_SUFFIX|]) else None
  }

  lemma {:induction false} ValueOfDigits(n: nat, width: nat)
    requires n < Pow10(width)
    ensures Value(Digits(n, width)) == n
  {
    if width > 0 {
      ValueOfDigits(n / 10, width - 1);
      var s, t, c := Digits(n, width), Digits(n / 10, width - 1), Digit(n % 10);
      ValueOfDigit(n % 10);
      assert s[..|s| - 1] == t && s[|s| - 1] == c;
      hide Digits, Digit, DigitValue;
      assert Value(s) == 10 * Value(t) + DigitValue(c);
    }
  }

  lemma ValueOfDigit(d: nat)
    requires d < 10
    ensures IsDigit(Digit(d)) && DigitValue(Digit(d)) == d
  {
  }

  lemma {:induction false} DigitsOfValue(s: string)
    requires AllDigits(s)
    ensures Value(s) < Pow10(|s|)
    ensures Digits(Value(s), |s|) == s
  {
    if s != "" {
      var t, c := s[..|s| - 1], s[|s| - 1];
      DigitsOfValue(t);
      DigitOfValue(c);
      LastDigit(Value(t), DigitValue(c));
      hide Digit, DigitValue;
      assert s == t + [c];
    }
  }

  lemma DigitOfValue(c: char)
    requires IsDigit(c)
    ensures Digit(DigitValue(c)) == c
  {
  }

  lemma LastDigit(v: nat, d: nat)
    requires d < 10
    ensures (10 * v + d) / 10 == v && (10 * v + d) % 10 == d
  {
  }

  lemma OffsetsFit()
    ensures TWO64 < Pow10(SEGMENT_DIGITS)
  {
    assert Pow10(5) == 100000;
    assert Pow10(10) == 100000 * Pow10(5);
    assert Pow10(15) == 100000 * Pow10(10);
    assert Pow10(20) == 100000 * Pow10(15);
  }

  lemma ParseOffsetOfDigits(n: nat)
    requires n < TWO64
    ensures ParseOffset(Digits(n, SEGMENT_DIGITS)) == Some(n)
  {
    hide Digits, Value, Pow10;
    OffsetsFit();
    ValueOfDigits(n, SEGMENT_DIGITS);
  }

  /** Every offset's segment name parses back to it. */
  lemma ParseSegmentNameOfName(base: nat)
    requires base < TWO64
    ensures ParseSegmentName(SegmentName(base)) == Some(base)
  {
    hide Digits, ParseOffset;
    ParseOffsetOfDigits(base);
    var name := SegmentName(base);
    assert name[..|name| - |SEGMENT_SUFFIX|] == Digits(base, SEGMENT_DIGITS);
    assert name[|name| - |SEGMENT_SUFFIX|..] == SEGMENT_SUFFIX;
  }

  /** A name that parses is the name of the offset it parses to, and of no other. */
  lemma NameOfParsedSegment(name: string)
    requires ParseSegmentName(name).Some?
    ensures ParseSegmentName(name).value < TWO64
    ensures SegmentName(ParseSegmentName(name).value) == name
  {
    var s := name[..|name| - |SEGMENT_SUFFIX|];
    DigitsOfValue(s);
    assert name == s + SEGMENT_SUFFIX;
  }

  lemma ParseSnapshotNameOfName(off: nat)
    requires off < TWO64
    ensures ParseSnapshotName(SnapshotName(off)) == Some(off)
  {
    hide Digits, ParseOffset;
    ParseOffsetOfDigits(off);
    var d := Digits(off, SEGMENT_DIGITS);
    var name := SnapshotName(off);
    assert name[..|SNAPSHOT_PREFIX|] == SNAPSHOT_PREFIX;
    var rest := name[|SNAPSHOT_PREFIX|..];
    assert rest == d + SNAPSHOT_SUFFIX;
    assert rest[|rest| - |SNAPSHOT_SUFFIX|..] == SNAPSHOT_SUFFIX;
    assert rest[..|rest| - |SNAPSHOT_SUFFIX|] == d;
  }

  lemma NameOfParsedSnapshot(name: string)
    requires ParseSnapshotName(name).Some?
    ensures ParseSnapshotName(name).value < TWO64
    ensures SnapshotName(ParseSnapshotName(name).value) == name
  {
    var rest := name[|SNAPSHOT_PREFIX|..];
    var s := rest[..|rest| - |SNAPSHOT_SUFFIX|];
    DigitsOfValue(s);
    assert name == SNAPSHOT_PREFIX + rest && rest == s + SNAPSHOT_SUFFIX;
  }

  /** The name of a file being written aside. */
  predicate Temporary(name: string) {
    EndsWith(name, COMPACTING_SUFFIX)
  }

  lemma AsideIsTemporary(name: string)
    ensures Temporary(name + COMPACTING_SUFFIX)
  {
    assert (name + COMPACTING_SUFFIX)[|name|..] == COMPACTING_SUFFIX;
  }

  /** Such a file is never taken for a segment, a snapshot or the commits file. */
  lemma TemporaryIsNothingElse(name: string)
    requires Temporary(name)
    ensures ParseSegmentName(name) == None && ParseSnapshotName(name) == None && name != COMMITS_FILE
  {
    assert name[|name| - 1] == COMPACTING_SUFFIX[|COMPACTING_SUFFIX| - 1] == 'g';
    assert COMMITS_FILE[|COMMITS_FILE| - 1] == 's';
  }

  lemma KindsAreDistinct(off: nat)
    requires off < TWO64
    ensures ParseSegmentName(SnapshotName(off)) == None
    ensures ParseSegmentName(COMMITS_FILE) == None && ParseSnapshotName(COMMITS_FILE) == None
    ensures !Temporary(SnapshotName(off)) && !Temporary(COMMITS_FILE)
  {
    var n := SnapshotName(off);
    assert n[|n| - 1] == 'e';
    assert COMMITS_FILE[|COMMITS_FILE| - 1] == 's';
  }

  /** Place by place: which decimal digit stands where. */
  lemma {:induction false} DigitAt(n: nat, width: nat, i: nat)
    requires i < width
    ensures Digits(n, width)[i] as int - '0' as int == n / Pow10(width - 1 - i) % 10
    decreases width
  {
    if i < width - 1 {
      DigitAt(n / 10, width - 1, i);
      var p := Pow10(width - 2 - i);
      DivideTwice(n, p);
    }
  }

  lemma DivideTwice(n: nat, p: nat)
    requires p > 0
    ensures n / 10 / p == n / (10 * p)
  {
    var q, r := n / 10, n % 10;
    var s, u := q / p, q % p;
    assert n == 10 * (p * s + u) + r == (10 * p) * s + (10 * u + r);
    Quotient(n, 10 * p, s, 10 * u + r);
  }

  /** What the files are called. */
  lemma FileNames(n: nat)
    requires n < TWO64
    ensures |SegmentName(n)| == 24 && SegmentName(n)[20..] == ".log"
    ensures |SnapshotName(n)| == 35 && SnapshotName(n)[..9] == "snapshot-" && SnapshotName(n)[29..] == ".state"
    ensures SnapshotName(n)[9..29] == SegmentName(n)[..20]
    ensures forall i :: 0 <= i < 20 ==> SegmentName(n)[i] as int - '0' as int == n / Pow10(19 - i) % 10
    ensures COMMITS_FILE == "commits.groups" && SegmentName(n) + COMPACTING_SUFFIX == SegmentName(n) + ".compacting"
  {
    forall i | 0 <= i < 20 ensures SegmentName(n)[i] as int - '0' as int == n / Pow10(19 - i) % 10 {
      DigitAt(n, 20, i);
    }
  }

  /** The order directory listings come in: `sort.Strings`. */
  predicate Before(s: string, t: string)
    decreases |s|
  {
    if t == "" then false
    else if s == "" then true
    else s[0] < t[0] || (s[0] == t[0] && Before(s[1..], t[1..]))
  }

  /** The first difference decides, and a name comes after its beginnings. */
  lemma {:induction false} BeforeMeans(s: string, t: string)
    ensures Before(s, t) <==>
            exists k :: 0 <= k <= |s| && k < |t| && s[..k] == t[..k] && (k < |s| ==> s[k] < t[k])
    decreases |s|
  {
    if s != "" && t != "" && s[0] == t[0] {
      var u, v := s[1..], t[1..];
      BeforeMeans(u, v);
      if k :| 0 <= k <= |u| && k < |v| && u[..k] == v[..k] && (k < |u| ==> u[k] < v[k]) {
        assert s[..k + 1] == [s[0]] + u[..k] && t[..k + 1] == [t[0]] + v[..k];
      }
      if k :| 0 <= k <= |s| && k < |t| && s[..k] == t[..k] && (k < |s| ==> s[k] < t[k]) {
        assert k > 0 && u[..k - 1] == s[..k][1..] && v[..k - 1] == t[..k][1..];
      }
    } else if s == "" || t == "" {
      assert s == "" && t != "" ==> s[..0] == t[..0];
    } else {
      assert s[..0] == t[..0];
      if k :| 0 <= k <= |s| && k < |t| && s[..k] == t[..k] && (k < |s| ==> s[k] < t[k]) {
        assert k > 0 ==> s[..k][0] == t[..k][0];
      }
    }
  }

  lemma {:induction false} ValueFromFront(c: char, t: string)
    requires IsDigit(c) && AllDigits(t)
    ensures AllDigits([c] + t)
    ensures Value([c] + t) == DigitValue(c) * Pow10(|t|) + Value(t)
    decreases |t|
  {
    var s := [c] + t;
    if t == "" {
      assert s[..|s| - 1] == "";
    } else {
      var u := t[..|t| - 1];
      assert s[..|s| - 1] == [c] + u && s[|s| - 1] == t[|t| - 1];
      ValueFromFront(c, u);
      assert 10 * (DigitValue(c) * Pow10(|u|)) == DigitValue(c) * Pow10(|t|);
    }
  }

  lemma LeadingDigitDecides(c: nat, d: nat, p: nat, x: nat, y: nat)
    requires c < d && x < p
    ensures c * p + x < d * p + y
  {
    assert (c + 1) * p <= d * p;
  }

  /** On digit strings of one length, listing order is numeric order. */
  lemma {:induction false} OrderIsNumeric(s: string, t: string)
    requires |s| == |t| && AllDigits(s) && AllDigits(t)
    ensures Before(s, t) <==> Value(s) < Value(t)
    decreases |s|
  {
    if s != "" {
      var u, v := s[1..], t[1..];
      assert s == [s[0]] + u && t == [t[0]] + v;
      ValueFromFront(s[0], u);
      ValueFromFront(t[0], v);
      DigitsOfValue(u);
      DigitsOfValue(v);
      OrderIsNumeric(u, v);
      if s[0] < t[0] {
        LeadingDigitDecides(DigitValue(s[0]), DigitValue(t[0]), Pow10(|u|), Value(u), Value(v));
      } else if t[0] < s[0] {
        LeadingDigitDecides(DigitValue(t[0]), DigitValue(s[0]), Pow10(|v|), Value(v), Value(u));
      }
    }
  }

  lemma {:induction false} BeforeWrapped(p: string, s: string, t: string, x: string)
    requires |s| == |t|
    ensures Before(p + s + x, p + t + x) <==> Before(s, t)
    decreases |p| + |s|
  {
    if p != "" {
      assert (p + s + x)[1..] == p[1..] + s + x && (p + t + x)[1..] == p[1..] + t + x;
      BeforeWrapped(p[1..], s, t, x);
    } else if s != "" {
      assert p + s + x == s + x && p + t + x == t + x;
      assert (s + x)[1..] == "" + s[1..] + x && (t + x)[1..] == "" + t[1..] + x;
      BeforeWrapped("", s[1..], t[1..], x);
    } else {
      assert p + s + x == x && p + t + x == x;
      BeforeIsStrict(x);
    }
  }

  lemma {:induction false} BeforeIsStrict(s: string)
    ensures !Before(s, s)
    decreases |s|
  {
    if s != "" {
      BeforeIsStrict(s[1..]);
    }
  }

  /** Zero padding makes a directory listing ascend by offset. */
  lemma ListingAscends(a: nat, b: nat)
    requires a < TWO64 && b < TWO64
    ensures Before(SegmentName(a), SegmentName(b)) <==> a < b
    ensures Before(SnapshotName(a), SnapshotName(b)) <==> a < b
  {
    hide Before, Digits, Value;
    var s, t := Digits(a, SEGMENT_DIGITS), Digits(b, SEGMENT_DIGITS);
    OffsetsFit();
    ValueOfDigits(a, SEGMENT_DIGITS);
    ValueOfDigits(b, SEGMENT_DIGITS);
    OrderIsNumeric(s, t);
    BeforeWrapped(SNAPSHOT_PREFIX, s, t, SNAPSHOT_SUFFIX);
    BeforeWrapped("", s, t, SEGMENT_SUFFIX);
    assert "" + s + SEGMENT_SUFFIX == SegmentName(a) && "" + t + SEGMENT_SUFFIX == SegmentName(b);
  }
}
