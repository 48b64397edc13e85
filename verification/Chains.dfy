/**
 * core/chain.go: a running hash over every step of a fold. The hash is an arbitrary
 * function into 32 bytes, so nothing here supposes it has no collisions; equal chains of
 * different histories are shown to contain one.
 */
module Chains {
  import opened Bytes
  import opened Events

  const DIGEST_LEN: nat := 32

  type Digest = d: bytes | |d| == DIGEST_LEN witness Zeros(32)

  /** "event-spine/chain/v1" and a zero byte. */
  const DOMAIN: bytes := [101, 118, 101, 110, 116, 45, 115, 112, 105, 110, 101, 47, 99, 104, 97, 105, 110, 47, 118, 49, 0]

  lemma DomainSpelled()
    ensures |DOMAIN| == 21 && DOMAIN[20] == 0
    ensures forall i :: 0 <= i < 20 ==> DOMAIN[i] == "event-spine/chain/v1"[i] as int
  {
  }

  /** One step of a fold: the event applied, and the projection's digest afterwards. */
  datatype Fact = Fact(event: Event, proj: Digest)

  function Preimage(before: Digest, f: Fact): bytes {
    before + Canonical(f.event) + f.proj
  }

  function Digested(H: bytes -> Digest, facts: seq<Fact>): Digest {
    if facts == [] then H(DOMAIN)
    else H(Preimage(Digested(H, facts[..|facts| - 1]), facts[|facts| - 1]))
  }

  ghost predicate Valids(facts: seq<Fact>) {
    forall i :: 0 <= i < |facts| ==> Valid(facts[i].event)
  }

  /** A preimage says which digest it followed, which event was applied and what resulted. */
  lemma PreimageInjective(c: Digest, f: Fact, d: Digest, g: Fact)
    requires Valid(f.event) && Valid(g.event) && Preimage(c, f) == Preimage(d, g)
    ensures c == d && f == g
  {
    hide Canonical;
    var p, n := Preimage(c, f), |Preimage(c, f)|;
    assert p[..DIGEST_LEN] == c && Preimage(d, g)[..DIGEST_LEN] == d;
    assert p[n - DIGEST_LEN..] == f.proj && Preimage(d, g)[n - DIGEST_LEN..] == g.proj;
    assert p[DIGEST_LEN..n - DIGEST_LEN] == Canonical(f.event) && Preimage(d, g)[DIGEST_LEN..n - DIGEST_LEN] == Canonical(g.event);
    CanonicalInjective(f.event, g.event);
  }

  lemma NeverTheDomain(c: Digest, f: Fact)
    ensures Preimage(c, f) != DOMAIN
  {
    assert |Preimage(c, f)| > |DOMAIN|;
  }

  /** What was hashed last. */
  function Top(H: bytes -> Digest, facts: seq<Fact>): bytes {
    if facts == [] then DOMAIN else Preimage(Digested(H, facts[..|facts| - 1]), facts[|facts| - 1])
  }

  lemma DigestOfTop(H: bytes -> Digest, facts: seq<Fact>)
    ensures Digested(H, facts) == H(Top(H, facts))
  {
    hide Preimage;
  }

  /** The same bytes hashed last means the same last step, on equal digests. */
  lemma SameTop(H: bytes -> Digest, a: seq<Fact>, b: seq<Fact>)
    requires Valids(a) && Valids(b) && Top(H, a) == Top(H, b)
    ensures a == [] <==> b == []
    ensures a != [] && b != [] ==> a[|a| - 1] == b[|b| - 1] && Digested(H, a[..|a| - 1]) == Digested(H, b[..|b| - 1])
  {
    hide Preimage, Digested;
    if a != [] {
      NeverTheDomain(Digested(H, a[..|a| - 1]), a[|a| - 1]);
    }
    if b != [] {
      NeverTheDomain(Digested(H, b[..|b| - 1]), b[|b| - 1]);
    }
    if a != [] && b != [] {
      PreimageInjective(Digested(H, a[..|a| - 1]), a[|a| - 1], Digested(H, b[..|b| - 1]), b[|b| - 1]);
    }
  }

  /**
   * Two chains with equal digests folded the same events, with the same projection digests,
   * in the same order; or else two different byte strings with one hash can be exhibited.
   */
  lemma {:induction false} SameDigestSameHistory(H: bytes -> Digest, a: seq<Fact>, b: seq<Fact>) returns (x: bytes, y: bytes)
    requires Valids(a) && Valids(b) && Digested(H, a) == Digested(H, b)
    ensures a == b || (x != y && H(x) == H(y))
    decreases |a| + |b|
  {
    hide Digested, Top;
    x, y := Top(H, a), Top(H, b);
    DigestOfTop(H, a);
    DigestOfTop(H, b);
    if x == y {
      SameTop(H, a, b);
      if a != [] {
        x, y := SameDigestSameHistory(H, a[..|a| - 1], b[..|b| - 1]);
        assert a == a[..|a| - 1] + [a[|a| - 1]] && b == b[..|b| - 1] + [b[|b| - 1]];
      }
    }
  }

  /**
   * Validation is what makes the encoding injective: a key too long for its length field
   * encodes the same as no key and a longer payload.
   */
  lemma OverlongKeysCollide(key: bytes, time: int64, schema: uint16, payload: bytes)
    requires |key| % TWO16 == 0
    ensures Canonical(Event(key, time, schema, payload)) == Canonical(Event([], time, schema, key + payload))
    ensures Valid(Event(key, time, schema, payload)) ==> key == []
  {
    assert [] + (key + payload) == key + payload;
  }

  // ---- How long the projection has stood still ----

  /** The step, counted from one, at which the projection's digest last changed. */
  function LastChange(facts: seq<Fact>): (n: nat)
    ensures n <= |facts| && (facts != [] ==> n > 0)
  {
    var n := |facts|;
    if n <= 1 || facts[n - 1].proj != facts[n - 2].proj then n else LastChange(facts[..n - 1])
  }

  /** The last `k` projection digests are equal. */
  ghost predicate Still(facts: seq<Fact>, k: nat) {
    && k <= |facts|
    && forall i :: |facts| - k <= i < |facts| ==> facts[i].proj == facts[|facts| - 1].proj
  }

  lemma {:induction false} StillSince(facts: seq<Fact>, k: nat)
    requires facts != [] && k > 0
    ensures Still(facts, k) <==> |facts| - LastChange(facts) + 1 >= k
    decreases |facts|
  {
    var n := |facts|;
    if n > 1 && facts[n - 1].proj == facts[n - 2].proj && k > 1 {
      var init := facts[..n - 1];
      StillSince(init, k - 1);
      if Still(facts, k) {
        assert forall i :: 0 <= i < n - 1 ==> init[i] == facts[i];
        assert Still(init, k - 1);
      }
      if Still(init, k - 1) {
        forall i | n - k <= i < n ensures facts[i].proj == facts[n - 1].proj {
          if i < n - 1 {
            assert init[i].proj == init[n - 2].proj;
          }
        }
      }
    } else if k > 1 && n > 1 {
      var i := n - 2;
      assert facts[i].proj != facts[n - 1].proj;
    }
  }

  lemma OneMoreFact(H: bytes -> Digest, facts: seq<Fact>, f: Fact)
    ensures Digested(H, facts + [f]) == H(Preimage(Digested(H, facts), f))
    ensures LastChange(facts + [f])
            == if facts == [] || f.proj != facts[|facts| - 1].proj then |facts| + 1 else LastChange(facts)
  {
    hide Preimage;
    assert (facts + [f])[..|facts|] == facts;
  }

  class Chain {
    const H: bytes -> Digest
    var digest: Digest
    var steps: nat
    var lastChange: nat
    var last: Digest
    var seen: bool

    /** Everything folded so far. */
    ghost var facts: seq<Fact>

    ghost predicate Valid()
      reads this
    {
      && digest == Digested(H, facts)
      && steps == |facts| && lastChange == LastChange(facts)
      && (seen <==> facts != []) && (seen ==> last == facts[|facts| - 1].proj)
    }

    constructor (H: bytes -> Digest)
      ensures Valid() && this.H == H && facts == [] && digest == H(DOMAIN)
    {
      this.H, digest, steps, lastChange, last, seen := H, H(DOMAIN), 0, 0, Zeros(32), false;
      facts := [];
    }

    /** `Advance`: one step folded in. */
    method Advance(e: Event, proj: Digest)
      requires Valid()
      modifies this
      ensures Valid() && facts == old(facts) + [Fact(e, proj)]
      ensures digest == H(old(digest) + Canonical(e) + proj)
    {
      hide Canonical, Digested, LastChange;
      var scratch: bytes := [];
      scratch := scratch + digest;
      scratch := scratch + Canonical(e);
      scratch := scratch + proj;
      ghost var more := facts + [Fact(e, proj)];
      assert scratch == Preimage(digest, Fact(e, proj));
      OneMoreFact(H, facts, Fact(e, proj));
      digest := H(scratch);
      steps := steps + 1;
      if !seen || proj != last {
        lastChange, last, seen := steps, proj, true;
      }
      facts := more;
    }

    function StepsSinceChange(): int
      reads this
    {
      steps - lastChange
    }

    /** `Absorbed`: exactly when the last `window + 1` projection digests are the same. */
    method Absorbed(window: int) returns (yes: bool)
      requires Valid()
      ensures yes <==> window > 0 && Still(facts, window + 1)
    {
      if window <= 0 || steps == 0 {
        return false;
      }
      StillSince(facts, window + 1);
      yes := StepsSinceChange() >= window;
    }
  }
}
