/**
 * sim/deps.go: the seeded generator. Uint64 is splitmix64; Intn bounds a draw by Lemire's
 * multiply-and-reject, whose loop ends only because the generator is a permutation of
 * every 64-bit word.
 *
 * Multipliers are written out where they are used: an identity between constants is what
 * the solver settles by rewriting.
 */
module Sources {
  import opened Bytes

  // ---- The mixing function, a round at a time ----

  function Fold30(x: bv64): bv64 { x ^ (x >> 30) }
  function Fold27(x: bv64): bv64 { x ^ (x >> 27) }
  function Fold31(x: bv64): bv64 { x ^ (x >> 31) }
  function Scale1(x: bv64): bv64 { x * 0xbf58476d1ce4e5b9 }
  function Scale2(x: bv64): bv64 { x * 0x94d049bb133111eb }

  /** The output for a state. */
  function Mix(s: bv64): bv64 {
    Fold31(Scale2(Fold27(Scale1(Fold30(s)))))
  }

  function Unfold30(x: bv64): bv64 { x ^ (x >> 30) ^ (x >> 60) }
  function Unfold27(x: bv64): bv64 { x ^ (x >> 27) ^ (x >> 54) }
  function Unfold31(x: bv64): bv64 { x ^ (x >> 31) ^ (x >> 62) }
  function Unscale1(x: bv64): bv64 { x * 0x96de1b173f119089 }
  function Unscale2(x: bv64): bv64 { x * 0x319642b2d24d8ec3 }

  /** The state for an output: every round undone, the odd multipliers by their inverses. */
  function Unmix(r: bv64): bv64 {
    Unfold30(Unscale1(Unfold27(Unscale2(Unfold31(r)))))
  }

  lemma Rounds(x: bv64)
    ensures Fold30(x) == x ^ (x >> 30) && Fold27(x) == x ^ (x >> 27) && Fold31(x) == x ^ (x >> 31)
    ensures Scale1(x) == x * 0xbf58476d1ce4e5b9 && Scale2(x) == x * 0x94d049bb133111eb
    ensures Unfold30(x) == x ^ (x >> 30) ^ (x >> 60) && Unfold27(x) == x ^ (x >> 27) ^ (x >> 54)
    ensures Unfold31(x) == x ^ (x >> 31) ^ (x >> 62)
    ensures Unscale1(x) == x * 0x96de1b173f119089 && Unscale2(x) == x * 0x319642b2d24d8ec3
  {
  }

  lemma FoldsUndone(x: bv64)
    ensures Unfold30(x ^ (x >> 30)) == x && Unfold27(x ^ (x >> 27)) == x && Unfold31(x ^ (x >> 31)) == x
  {
  }

  lemma FoldsRedone(x: bv64)
    ensures Fold30(x ^ (x >> 30) ^ (x >> 60)) == x && Fold27(x ^ (x >> 27) ^ (x >> 54)) == x && Fold31(x ^ (x >> 31) ^ (x >> 62)) == x
  {
  }

  lemma ScalesUndone(x: bv64)
    ensures Unscale1(x * 0xbf58476d1ce4e5b9) == x && Unscale2(x * 0x94d049bb133111eb) == x
    ensures Scale1(x * 0x96de1b173f119089) == x && Scale2(x * 0x319642b2d24d8ec3) == x
  {
  }

  lemma RoundsUndo(x: bv64)
    ensures Unfold30(Fold30(x)) == x && Unfold27(Fold27(x)) == x && Unfold31(Fold31(x)) == x
    ensures Fold30(Unfold30(x)) == x && Fold27(Unfold27(x)) == x && Fold31(Unfold31(x)) == x
    ensures Unscale1(Scale1(x)) == x && Unscale2(Scale2(x)) == x
    ensures Scale1(Unscale1(x)) == x && Scale2(Unscale2(x)) == x
  {
    hide Fold30, Fold27, Fold31, Scale1, Scale2, Unfold30, Unfold27, Unfold31, Unscale1, Unscale2;
    Rounds(x);
    FoldsUndone(x);
    FoldsRedone(x);
    ScalesUndone(x);
  }

  /** Mixing is a bijection on 64-bit words. */
  lemma MixIsBijective(x: bv64)
    ensures Unmix(Mix(x)) == x && Mix(Unmix(x)) == x
  {
    hide Fold30, Fold27, Fold31, Scale1, Scale2, Unfold30, Unfold27, Unfold31, Unscale1, Unscale2;
    RoundsUndo(x);
    RoundsUndo(Fold30(x));
    RoundsUndo(Scale1(Fold30(x)));
    RoundsUndo(Fold27(Scale1(Fold30(x))));
    RoundsUndo(Scale2(Fold27(Scale1(Fold30(x)))));
    RoundsUndo(Unfold31(x));
    RoundsUndo(Unscale2(Unfold31(x)));
    RoundsUndo(Unfold27(Unscale2(Unfold31(x))));
    RoundsUndo(Unscale1(Unfold27(Unscale2(Unfold31(x)))));
  }

  /** What the generator answers first, seeded with zero: the published sequence. */
  lemma KnownAnswers()
    ensures Mix(After(0, 1)) == 0xe220_a839_7b1d_cdaf && Mix(After(0, 2)) == 0x6e78_9e6a_a1b9_65f4 && Mix(After(0, 3)) == 0x06c4_5d18_8009_454f
    ensures Mix(After(0, 4)) == 0xf88b_b8a8_724c_81ec && Mix(After(0, 5)) == 0x1b39_896a_51a8_749b
  {
    hide Mix, Stepped;
    assert After(0, 0) == 0;
    assert After(0, 1) == Stepped(0);
    assert After(0, 2) == Stepped(After(0, 1));
    assert After(0, 3) == Stepped(After(0, 2));
    assert After(0, 4) == Stepped(After(0, 3));
    KnownSteps();
    KnownMixes();
  }

  lemma KnownSteps()
    ensures Stepped(0x0000_0000_0000_0000) == 0x9e37_79b9_7f4a_7c15
    ensures Stepped(0x9e37_79b9_7f4a_7c15) == 0x3c6e_f372_fe94_f82a
    ensures Stepped(0x3c6e_f372_fe94_f82a) == 0xdaa6_6d2c_7ddf_743f
    ensures Stepped(0xdaa6_6d2c_7ddf_743f) == 0x78dd_e6e5_fd29_f054
    ensures Stepped(0x78dd_e6e5_fd29_f054) == 0x1715_609f_7c74_6c69
  {
  }

  lemma KnownMixes()
    ensures Mix(0x9e37_79b9_7f4a_7c15) == 0xe220_a839_7b1d_cdaf
    ensures Mix(0x3c6e_f372_fe94_f82a) == 0x6e78_9e6a_a1b9_65f4
    ensures Mix(0xdaa6_6d2c_7ddf_743f) == 0x06c4_5d18_8009_454f
    ensures Mix(0x78dd_e6e5_fd29_f054) == 0xf88b_b8a8_724c_81ec
    ensures Mix(0x1715_609f_7c74_6c69) == 0x1b39_896a_51a8_749b
  {
  }

  // ---- The sequence of states ----

  /** The state after one draw, and how far apart two states are. */
  function Stepped(state: bv64): bv64 { state + 0x9e3779b97f4a7c15 }
  function Gap(to: bv64, from: bv64): bv64 { to - from }

  /** The state `k` draws on. */
  function After(state: bv64, k: nat): bv64 {
    if k == 0 then state else Stepped(After(state, k - 1))
  }

  /** How many draws, modulo 2^64, span a distance: the increment is odd, so there is always an answer. */
  function Draws(d: bv64): bv64 { d * 0xf1de83e19937733d }
  function Span(k: bv64): bv64 { k * 0x9e3779b97f4a7c15 }
  function Raise(d: bv64): bv64 { d + 0x9e3779b97f4a7c15 }
  function More(x: bv64): bv64 { x + 1 }

  lemma SpanDraws(d: bv64)
    ensures Span(d * 0xf1de83e19937733d) == d && Draws(0) == 0
  {
  }

  lemma SpansAre(d: bv64)
    ensures Draws(d) == d * 0xf1de83e19937733d && Raise(d) == d + 0x9e3779b97f4a7c15 && Stepped(d) == d + 0x9e3779b97f4a7c15
  {
  }

  lemma DrawsUndone(d: bv64)
    ensures Span(Draws(d)) == d
  {
    hide Draws, Span, Raise, Stepped;
    SpansAre(d);
    SpanDraws(d);
  }

  lemma RaisedByOne(d: bv64)
    ensures Draws(d + 0x9e3779b97f4a7c15) == More(d * 0xf1de83e19937733d)
  {
  }

  lemma OneMoreDrawSpans(d: bv64)
    ensures Draws(Raise(d)) == More(Draws(d))
  {
    hide Draws, Raise, More, Stepped;
    SpansAre(d);
    RaisedByOne(d);
  }

  lemma GapRaised(to: bv64, from: bv64)
    ensures Gap(to + 0x9e3779b97f4a7c15, from) == Raise(Gap(to, from)) && Gap(from, from) == 0
  {
  }

  lemma GapStepped(to: bv64, from: bv64)
    ensures Gap(Stepped(to), from) == Raise(Gap(to, from)) && Gap(from, from) == 0
  {
    hide Gap, Stepped, Raise, Draws;
    GapRaised(to, from);
    SpansAre(to);
  }

  function Plus(gap: bv64, from: bv64): bv64 { gap + from }

  lemma GapIs(to: bv64, from: bv64)
    ensures Gap(to, from) == to - from
  {
  }

  lemma DifferenceUndone(to: bv64, from: bv64)
    ensures Plus(to - from, from) == to
  {
  }

  lemma GapUndone(to: bv64, from: bv64)
    ensures Plus(Gap(to, from), from) == to
  {
    hide Plus, Gap;
    GapIs(to, from);
    DifferenceUndone(to, from);
  }

  // ---- Counting in 64 bits ----

  const ALL_ONES: bv64 := 0xFFFF_FFFF_FFFF_FFFF

  function Half(x: bv64): bv64 { x >> 1 }
  predicate Odd(x: bv64) { x & 1 == 1 }
  function Byte(x: bv64): bv64 { x >> 8 }

  /** The number a word is in binary. */
  function Count(x: bv64): nat
    decreases x
  {
    if x == 0 then 0 else HalfIsLess(x); 2 * Count(Half(x)) + if Odd(x) then 1 else 0
  }

  lemma HalfIsLess(x: bv64)
    ensures x != 0 ==> Half(x) < x
  {
  }

  lemma HalfOfNothing()
    ensures Half(0) == 0 && !Odd(0)
  {
  }

  lemma Increments(x: bv64)
    ensures !Odd(x) ==> Half(More(x)) == Half(x) && Odd(More(x)) && More(x) != 0
    ensures Odd(x) && x != ALL_ONES ==> Half(More(x)) == More(Half(x)) && !Odd(More(x)) && More(x) != 0 && Half(x) != ALL_ONES
  {
  }

  lemma {:induction false} CountMore(x: bv64)
    requires x != ALL_ONES
    ensures Count(More(x)) == Count(x) + 1
    decreases x
  {
    hide Half, Odd, More;
    HalfOfNothing();
    Increments(x);
    HalfIsLess(x);
    if Odd(x) {
      CountMore(Half(x));
    }
  }

  /** The word has no digit from the `n`th on. */
  predicate Fits(x: bv64, n: nat) {
    if n == 0 then x == 0 else Fits(Half(x), n - 1)
  }

  lemma FitsByte(x: bv64, n: nat)
    requires Fits(Byte(x), n)
    ensures Fits(x, n + 8)
  {
    hide Half, Odd, Byte, Fits;
    EightHalves(x);
    FitsHalf(Half(Half(Half(Half(Half(Half(Half(x))))))), n);
    FitsHalf(Half(Half(Half(Half(Half(Half(x)))))), n + 1);
    FitsHalf(Half(Half(Half(Half(Half(x))))), n + 2);
    FitsHalf(Half(Half(Half(Half(x)))), n + 3);
    FitsHalf(Half(Half(Half(x))), n + 4);
    FitsHalf(Half(Half(x)), n + 5);
    FitsHalf(Half(x), n + 6);
    FitsHalf(x, n + 7);
  }

  lemma FitsHalf(x: bv64, n: nat)
    requires Fits(Half(x), n)
    ensures Fits(x, n + 1)
  {
    hide Half;
  }

  lemma AllFit(x: bv64)
    ensures Fits(x, 64)
  {
    hide Byte, Fits;
    EightBytes(x);
    assert Fits(0, 0) by {
      NothingFits();
    }
    FitsByte(Byte(Byte(Byte(Byte(Byte(Byte(Byte(x))))))), 0);
    FitsByte(Byte(Byte(Byte(Byte(Byte(Byte(x)))))), 8);
    FitsByte(Byte(Byte(Byte(Byte(Byte(x))))), 16);
    FitsByte(Byte(Byte(Byte(Byte(x)))), 24);
    FitsByte(Byte(Byte(Byte(x))), 32);
    FitsByte(Byte(Byte(x)), 40);
    FitsByte(Byte(x), 48);
    FitsByte(x, 56);
  }

  lemma NothingFits()
    ensures Fits(0, 0)
  {
  }

  /** No two words are the same number. */
  lemma {:induction false} CountIsUnique(x: bv64, y: bv64, n: nat)
    requires Count(x) == Count(y) && Fits(x, n) && Fits(y, n)
    ensures x == y
    decreases n
  {
    hide Half, Odd, Count;
    if n > 0 {
      CountHalf(x);
      CountHalf(y);
      TwiceAndOne(Count(Half(x)), Odd(x), Count(Half(y)), Odd(y));
      CountIsUnique(Half(x), Half(y), n - 1);
      HalfAndOdd(x, y);
    }
  }

  lemma TwiceAndOne(a: nat, p: bool, b: nat, q: bool)
    requires 2 * a + (if p then 1 else 0) == 2 * b + if q then 1 else 0
    ensures a == b && p == q
  {
  }

  lemma HalfAndOdd(x: bv64, y: bv64)
    ensures Half(x) == Half(y) && (Odd(x) <==> Odd(y)) ==> x == y
  {
  }

  lemma NothingCounted()
    ensures Count(0) == 0
  {
  }

  lemma CountHalf(x: bv64)
    ensures Count(x) == 2 * Count(Half(x)) + if Odd(x) then 1 else 0
  {
    hide Half, Odd;
    HalfOfNothing();
  }

  lemma EightHalves(x: bv64)
    ensures Half(Half(Half(Half(Half(Half(Half(Half(x)))))))) == Byte(x)
    ensures x & 0xff == 0xff ==>
              && Odd(x) && Odd(Half(x)) && Odd(Half(Half(x))) && Odd(Half(Half(Half(x)))) && Odd(Half(Half(Half(Half(x)))))
              && Odd(Half(Half(Half(Half(Half(x)))))) && Odd(Half(Half(Half(Half(Half(Half(x)))))))
              && Odd(Half(Half(Half(Half(Half(Half(Half(x))))))))
  {
  }

  lemma CountByte(x: bv64)
    ensures Count(x) <= 256 * Count(Byte(x)) + 255
    ensures x & 0xff == 0xff ==> Count(x) == 256 * Count(Byte(x)) + 255
  {
    hide Half, Odd, Byte, Count;
    EightHalves(x);
    CountHalf(x);
    CountHalf(Half(x));
    CountHalf(Half(Half(x)));
    CountHalf(Half(Half(Half(x))));
    CountHalf(Half(Half(Half(Half(x)))));
    CountHalf(Half(Half(Half(Half(Half(x))))));
    CountHalf(Half(Half(Half(Half(Half(Half(x)))))));
    CountHalf(Half(Half(Half(Half(Half(Half(Half(x))))))));
  }

  lemma EightBytes(x: bv64)
    ensures Byte(Byte(Byte(Byte(Byte(Byte(Byte(Byte(x)))))))) == 0
  {
  }

  lemma BytesOfOnes()
    ensures Byte(ALL_ONES) == 0x00FF_FFFF_FFFF_FFFF && Byte(0x00FF_FFFF_FFFF_FFFF) == 0xFFFF_FFFF_FFFF
    ensures Byte(0xFFFF_FFFF_FFFF) == 0xFF_FFFF_FFFF && Byte(0xFF_FFFF_FFFF) == 0xFFFF_FFFF && Byte(0xFFFF_FFFF) == 0xFF_FFFF
    ensures Byte(0xFF_FFFF) == 0xFFFF && Byte(0xFFFF) == 0xFF && Byte(0xFF) == 0
  {
  }

  /** There are 2^64 words. */
  lemma CountBelow(x: bv64)
    ensures Count(x) < TWO64
  {
    hide Byte, Count;
    EightBytes(x);
    NothingCounted();
    CountByte(x);
    CountByte(Byte(x));
    CountByte(Byte(Byte(x)));
    CountByte(Byte(Byte(Byte(x))));
    CountByte(Byte(Byte(Byte(Byte(x)))));
    CountByte(Byte(Byte(Byte(Byte(Byte(x))))));
    CountByte(Byte(Byte(Byte(Byte(Byte(Byte(x)))))));
    CountByte(Byte(Byte(Byte(Byte(Byte(Byte(Byte(x))))))));
  }

  lemma CountOnes()
    ensures Count(ALL_ONES) == TWO64 - 1
  {
    hide Byte, Count;
    BytesOfOnes();
    NothingCounted();
    CountByte(ALL_ONES);
    CountByte(0x00FF_FFFF_FFFF_FFFF);
    CountByte(0xFFFF_FFFF_FFFF);
    CountByte(0xFF_FFFF_FFFF);
    CountByte(0xFFFF_FFFF);
    CountByte(0xFF_FFFF);
    CountByte(0xFFFF);
    CountByte(0xFF);
  }

  // ---- Every output, once ----

  /** How many draws from `seed` it takes to draw `out`. */
  function DrawsUntil(seed: bv64, out: bv64): (k: nat)
    ensures k < TWO64
  {
    CountBelow(Draws(Gap(Unmix(out), seed)));
    Count(Draws(Gap(Unmix(out), seed)))
  }

  /** The distance from the seed counts the draws. */
  lemma {:induction false} DrawsAreCounted(seed: bv64, k: nat)
    requires k < TWO64
    ensures Count(Draws(Gap(After(seed, k), seed))) == k
    decreases k
  {
    hide Draws, Gap, Stepped, Count, More, Raise;
    GapStepped(seed, seed);
    if k == 0 {
      SpanDraws(0);
      NothingCounted();
    } else {
      var s := After(seed, k - 1);
      var n := Draws(Gap(s, seed));
      DrawsAreCounted(seed, k - 1);
      CountOnes();
      CountMore(n);
      OneMoreDrawSpans(Gap(s, seed));
      GapStepped(s, seed);
    }
  }

  /**
   * The generator draws every output exactly once in each 2^64 draws, whatever the seed:
   * of all the numbers of draws, one leads to `out`, and it can be computed.
   */
  lemma EveryOutputOnce(seed: bv64, out: bv64, k: nat)
    requires k < TWO64
    ensures Mix(After(seed, k)) == out <==> k == DrawsUntil(seed, out)
  {
    hide Mix, Unmix, Draws, Gap, Count, After, Span, Plus, Fits;
    MixIsBijective(out);
    MixIsBijective(After(seed, k));
    DrawsAreCounted(seed, k);
    if k == DrawsUntil(seed, out) {
      AllFit(Draws(Gap(After(seed, k), seed)));
      AllFit(Draws(Gap(Unmix(out), seed)));
      CountIsUnique(Draws(Gap(After(seed, k), seed)), Draws(Gap(Unmix(out), seed)), 64);
      DrawsUndone(Gap(After(seed, k), seed));
      DrawsUndone(Gap(Unmix(out), seed));
      GapUndone(After(seed, k), seed);
      GapUndone(Unmix(out), seed);
    }
  }

  // ---- Bounding a draw ----

  /** `bits.Mul64`: the high and low words of the 128-bit product. */
  function Hi(x: nat, n: nat): nat { x * n / TWO64 }
  function Lo(x: nat, n: nat): nat { x * n % TWO64 }

  /** The wrapped negation of the bound, modulo the bound. */
  function Threshold(n: nat): (t: nat)
    requires 0 < n < TWO64
    ensures t < n
  {
    (TWO64 - n) % n
  }

  predicate Accepted(x: nat, n: nat)
    requires 0 < n < TWO64
  {
    Lo(x, n) >= Threshold(n)
  }

  lemma ThresholdIs(n: nat)
    requires 0 < n < TWO64
    ensures TWO64 == n * (TWO64 / n) + Threshold(n) && TWO64 / n > 0
  {
    var q, r := (TWO64 - n) / n, (TWO64 - n) % n;
    assert TWO64 == n * q + n + r == n * (q + 1) + r by {
      Distribute(n, q);
    }
    Quotient(TWO64, n, q + 1, r);
  }

  lemma Distribute(n: int, q: int)
    ensures n * q + n == n * (q + 1)
  {
  }

  lemma MultiplyThrough(a: nat, b: nat, n: nat)
    ensures a <= b ==> a * n <= b * n
  {
    if a <= b {
      assert (b - a) * n >= 0 && b * n == a * n + (b - a) * n;
    }
  }

  /** The word of all ones is never rejected, whatever the bound. */
  lemma AllOnesAccepted(n: nat)
    requires 0 < n < TWO64
    ensures Accepted(TWO64 - 1, n)
  {
    Quotient((TWO64 - 1) * n, TWO64, n - 1, TWO64 - n);
    var q, r := (TWO64 - n) / n, (TWO64 - n) % n;
    assert TWO64 - n == n * q + r && n * q >= 0;
  }

  /** The least draw that gives `v`. */
  function First(n: nat, v: nat): nat
    requires 0 < n < TWO64
  {
    (v * TWO64 + Threshold(n) + n - 1) / n
  }

  lemma AtLeastCeiling(x: nat, n: nat, a: nat)
    requires n > 0
    ensures x * n >= a <==> x >= (a + n - 1) / n
  {
    var c := (a + n - 1) / n;
    var r := (a + n - 1) % n;
    assert a + n - 1 == n * c + r;
    if x >= c {
      assert x * n >= c * n;
    } else {
      assert x + 1 <= c;
      assert (x + 1) * n <= c * n;
      assert x * n + n == (x + 1) * n;
    }
  }

  /** Where the product falls says which value a draw gives and whether it is kept. */
  lemma WhereItFalls(x: nat, n: nat, v: nat)
    requires 0 < n < TWO64
    ensures Accepted(x, n) && Hi(x, n) == v <==> v * TWO64 + Threshold(n) <= x * n < (v + 1) * TWO64
  {
    var p := x * n;
    assert p == TWO64 * Hi(x, n) + Lo(x, n);
  }

  /**
   * Every value below the bound is given by exactly floor(2^64 / n) of the 2^64 draws: by
   * that many consecutive ones, and by no other.
   */
  lemma EqualShares(n: nat, v: nat, x: nat)
    requires 0 < n < TWO64 && v < n
    ensures Accepted(x, n) && Hi(x, n) == v <==> First(n, v) <= x < First(n, v) + TWO64 / n
    ensures First(n, v) + TWO64 / n <= TWO64
  {
    hide Hi, Lo, Threshold, Accepted;
    var q, a := TWO64 / n, v * TWO64 + Threshold(n);
    ThresholdIs(n);
    WhereItFalls(x, n, v);
    AtLeastCeiling(x, n, a);
    assert (v + 1) * TWO64 == a + n * q;
    BelowShifted(x, n, a, q);
    var last := First(n, v) + q - 1;
    BelowShifted(last, n, a, q);
    BelowAll(last, n, v);
  }

  lemma BelowShifted(x: nat, n: nat, a: nat, q: nat)
    requires n > 0
    ensures x * n < a + n * q <==> x < (a + n - 1) / n + q
  {
    if x >= q {
      assert x * n - n * q == (x - q) * n;
      AtLeastCeiling(x - q, n, a);
    } else {
      assert (x + 1) * n <= q * n;
      assert x * n + n == (x + 1) * n;
    }
  }

  lemma BelowAll(x: nat, n: nat, v: nat)
    requires v < n && x * n < (v + 1) * TWO64
    ensures x < TWO64
  {
    MultiplyThrough(TWO64, x, n);
    assert (v + 1) * TWO64 <= n * TWO64;
  }

  lemma InRange(x: nat, n: nat)
    requires x < TWO64 && n > 0
    ensures Hi(x, n) < n
  {
    MultiplyThrough(x + 1, TWO64, n);
    assert (x + 1) * n == x * n + n;
    assert x * n == TWO64 * Hi(x, n) + Lo(x, n);
  }

  // ---- The generator ----

  /** The draw that led to `state`. */
  function Drawn(state: bv64): nat {
    Mix(state) as nat
  }

  /** Some state draws the word of all ones. */
  lemma AllOnesDrawn()
    ensures Drawn(Unmix(ALL_ONES)) == TWO64 - 1
  {
    hide Mix, Unmix;
    MixIsBijective(ALL_ONES);
    assert ALL_ONES as nat == TWO64 - 1;
  }

  lemma RejectedIsAnother(state: bv64, n: nat)
    requires 0 < n < TWO64 && !Accepted(Drawn(state), n)
    ensures state != Unmix(ALL_ONES)
  {
    hide Drawn, Unmix, Accepted;
    AllOnesDrawn();
    AllOnesAccepted(n);
  }

  /** So some number of draws gets there from anywhere. */
  lemma Reaches(state: bv64) returns (m: nat)
    ensures After(state, m) == Unmix(ALL_ONES)
  {
    hide Unmix, Mix, After;
    m := DrawsUntil(state, ALL_ONES);
    EveryOutputOnce(state, ALL_ONES, m);
    MixIsBijective(After(state, m));
  }

  lemma {:induction false} AfterFirst(state: bv64, m: nat)
    requires m > 0
    ensures After(state, m) == After(Stepped(state), m - 1)
    decreases m
  {
    hide Stepped;
    if m > 1 {
      AfterFirst(state, m - 1);
    }
  }

  class Source {
    var state: bv64

    constructor (seed: bv64)
      ensures state == seed
    {
      state := seed;
    }

    method Uint64() returns (r: bv64)
      modifies this
      ensures state == Stepped(old(state)) && r == Mix(state)
    {
      state := Stepped(state);
      r := Mix(state);
    }

    /** A draw and its product with the bound. */
    method Draw(n: nat) returns (hi: nat, lo: nat)
      requires 0 < n < TWO64
      modifies this
      ensures state == Stepped(old(state)) && hi == Hi(Drawn(state), n) < n && lo == Lo(Drawn(state), n)
    {
      hide Mix, Stepped, Hi, Lo;
      var r := Uint64();
      var x := r as nat;
      InRange(x, n);
      hi, lo := Hi(x, n), Lo(x, n);
    }

    /** `Intn`: the first draw that is not rejected, whose high word is the answer. It always comes. */
    method Intn(n: nat) returns (r: nat, ghost k: nat)
      requires 0 < n < TWO63
      modifies this
      ensures r < n && r == Hi(Drawn(state), n)
      ensures FirstAccepted(old(state), state, k, n)
    {
      hide Drawn, Stepped, Hi, Lo, Unmix, After, Threshold, Rejected;
      var hi, lo := Draw(n);
      k := 1;
      OneDraw(old(state), n);
      ghost var left := Reaches(state);
      if lo < n {
        var threshold := ThresholdOf(n);
        while lo < threshold
          invariant k > 0 && state == After(old(state), k) && Rejected(old(state), k, n)
          invariant hi == Hi(Drawn(state), n) < n && lo == Lo(Drawn(state), n)
          invariant After(state, left) == Unmix(ALL_ONES)
          decreases left
        {
          RejectedIsAnother(state, n);
          NotThereYet(state, left);
          left := left - 1;
          OneMoreDraw(old(state), k, n);
          hi, lo := Draw(n);
          k := k + 1;
        }
      }
      BelowBound(n);
      r := hi;
    }
  }

  /** None of the draws before the `k`th was accepted. */
  ghost predicate Rejected(start: bv64, k: nat, n: nat)
    requires 0 < n < TWO64
  {
    forall j :: 0 < j < k ==> !Accepted(Drawn(After(start, j)), n)
  }

  /** The `k`th draw from `start` led to `state`, and was the first to be accepted. */
  ghost predicate FirstAccepted(start: bv64, state: bv64, k: nat, n: nat)
    requires 0 < n < TWO64
  {
    k > 0 && state == After(start, k) && Accepted(Drawn(state), n) && Rejected(start, k, n)
  }

  lemma NotThereYet(state: bv64, left: nat)
    requires After(state, left) == Unmix(ALL_ONES) && state != Unmix(ALL_ONES)
    ensures left > 0 && After(Stepped(state), left - 1) == Unmix(ALL_ONES)
  {
    hide Stepped, Unmix;
    if left > 0 {
      AfterFirst(state, left);
    }
  }

  method ThresholdOf(n: nat) returns (t: nat)
    requires 0 < n < TWO64
    ensures t == Threshold(n)
  {
    t := (TWO64 - n) % n;
  }

  lemma BelowBound(n: nat)
    requires 0 < n < TWO64
    ensures Threshold(n) < n
  {
  }

  lemma OneDraw(start: bv64, n: nat)
    requires 0 < n < TWO64
    ensures After(start, 1) == Stepped(start) && Rejected(start, 1, n)
  {
    hide Stepped;
    assert After(start, 0) == start;
  }

  lemma OneMoreDraw(start: bv64, k: nat, n: nat)
    requires 0 < n < TWO64 && Rejected(start, k, n) && !Accepted(Drawn(After(start, k)), n)
    ensures After(start, k + 1) == Stepped(After(start, k)) && Rejected(start, k + 1, n)
  {
    hide Stepped, Drawn, Accepted;
  }
}
