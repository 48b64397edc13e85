/**
 * core/cycle.go: command, events, projection, chain. A live run, a replay of its events,
 * and a replay cut into batches anywhere must leave the same projection and the same chain.
 * The projection and the decider are arbitrary functions.
 */
module Cycles {
  import opened Wrappers
  import opened Bytes
  import opened Events
  import opened Recovery
  import opened Durability
  import opened Readers
  import opened Replaying
  import opened Chains

  datatype Command = Command(name: bytes, key: bytes, payload: bytes)

  /** `Command.Validate` returning nil. */
  predicate ValidCommand(c: Command) {
    c.name != [] && |c.key| <= MAX_KEY_LEN
  }

  datatype CycleError = Poisoned | InvalidCommand | Rejected | InvalidEvent(at: nat)

  /** What is folded into. A failed `apply` may leave the state half changed, so it returns one anyway. */
  datatype Projection<!S> = Projection(apply: (S, Event) -> (S, bool), digest: S -> Digest)

  /** Where a cycle stands: the projection, every step chained, and whether an apply failed. */
  datatype Standing<S> = Standing(proj: S, facts: seq<Fact>, poisoned: bool)

  /** One event at a time, until one cannot be applied. */
  function ApplyEach<S>(p: Projection<S>, s: Standing<S>, events: seq<Event>): Standing<S>
    decreases |events|
  {
    if s.poisoned || events == [] then s
    else
      var (t, ok) := p.apply(s.proj, events[0]);
      if ok then ApplyEach(p, Standing(t, s.facts + [Fact(events[0], p.digest(t))], false), events[1..])
      else Standing(t, s.facts, true)
  }

  lemma {:induction false} ApplyInTwo<S>(p: Projection<S>, s: Standing<S>, a: seq<Event>, b: seq<Event>)
    ensures ApplyEach(p, s, a + b) == ApplyEach(p, ApplyEach(p, s, a), b)
    decreases |a|
  {
    if a == [] {
      assert a + b == b;
    } else if !s.poisoned {
      assert (a + b)[0] == a[0] && (a + b)[1..] == a[1..] + b;
      var (t, ok) := p.apply(s.proj, a[0]);
      if ok {
        ApplyInTwo(p, Standing(t, s.facts + [Fact(a[0], p.digest(t))], false), a[1..], b);
      }
    }
  }

  /** How many events are applied before one fails. */
  function Applied<S>(p: Projection<S>, proj: S, events: seq<Event>): (n: nat)
    ensures n <= |events|
    decreases |events|
  {
    if events == [] || !p.apply(proj, events[0]).1 then 0 else 1 + Applied(p, p.apply(proj, events[0]).0, events[1..])
  }

  /** The projection after these events, whether or not the last of them could be applied. */
  function Reached<S>(p: Projection<S>, proj: S, events: seq<Event>): S {
    if events == [] then proj else p.apply(Reached(p, proj, events[..|events| - 1]), events[|events| - 1]).0
  }

  lemma {:induction false} ReachedFirst<S>(p: Projection<S>, proj: S, events: seq<Event>)
    requires events != []
    ensures Reached(p, proj, events) == Reached(p, p.apply(proj, events[0]).0, events[1..])
    decreases |events|
  {
    var n := |events| - 1;
    if n > 0 {
      ReachedFirst(p, proj, events[..n]);
      assert events[1..][..n - 1] == events[..n][1..] && events[1..][n - 1] == events[n];
    } else {
      assert events[..0] == [] && events[1..] == [];
    }
  }

  lemma ReachedLater<S>(p: Projection<S>, proj: S, events: seq<Event>, k: nat)
    requires k < |events|
    ensures Reached(p, proj, events[..k + 1]) == Reached(p, p.apply(proj, events[0]).0, events[1..][..k])
  {
    hide Reached;
    ReachedFirst(p, proj, events[..k + 1]);
    assert events[..k + 1][1..] == events[1..][..k];
  }

  lemma NothingReached<S>(p: Projection<S>, proj: S, events: seq<Event>)
    ensures Reached(p, proj, events[..0]) == proj
  {
  }

  /** It stops at the first event that the projection, after all those before, cannot apply. */
  lemma {:induction false} StopsThere<S>(p: Projection<S>, proj: S, events: seq<Event>)
    ensures var i := Applied(p, proj, events);
            && (i < |events| ==> !p.apply(Reached(p, proj, events[..i]), events[i]).1)
            && forall k :: 0 <= k < i ==> p.apply(Reached(p, proj, events[..k]), events[k]).1
    decreases |events|
  {
    hide Reached;
    NothingReached(p, proj, events);
    if events != [] && p.apply(proj, events[0]).1 {
      var t, rest, i := p.apply(proj, events[0]).0, events[1..], Applied(p, proj, events);
      StopsThere(p, t, rest);
      forall k | 0 < k <= i && k < |events| ensures Reached(p, proj, events[..k]) == Reached(p, t, rest[..k - 1]) && events[k] == rest[k - 1] {
        ReachedLater(p, proj, events, k - 1);
      }
    }
  }

  /** Where that leaves the projection. */
  lemma {:induction false} LeftThere<S>(p: Projection<S>, s: Standing<S>, events: seq<Event>)
    requires !s.poisoned
    ensures var t, i := ApplyEach(p, s, events), Applied(p, s.proj, events);
            && (t.poisoned <==> i < |events|)
            && t.proj == Reached(p, s.proj, events[..if i < |events| then i + 1 else i])
    decreases |events|
  {
    hide Reached;
    NothingReached(p, s.proj, events);
    if events != [] {
      var (t, ok) := p.apply(s.proj, events[0]);
      ReachedLater(p, s.proj, events, 0);
      NothingReached(p, t, events[1..]);
      if ok {
        var n := Applied(p, t, events[1..]);
        LeftThere(p, Standing(t, s.facts + [Fact(events[0], p.digest(t))], false), events[1..]);
        ReachedLater(p, s.proj, events, if n < |events| - 1 then n + 1 else n);
      }
    }
  }

  /** The facts chained: each event with the digest of the projection that had just folded it. */
  function Chained<S>(p: Projection<S>, proj: S, events: seq<Event>, n: nat): (r: seq<Fact>)
    requires n <= |events|
    ensures |r| == n
    ensures forall k :: 0 <= k < n ==> r[k] == Fact(events[k], p.digest(Reached(p, proj, events[..k + 1])))
  {
    seq(n, k requires 0 <= k < n => Fact(events[k], p.digest(Reached(p, proj, events[..k + 1]))))
  }

  lemma ChainedFirst<S>(p: Projection<S>, proj: S, events: seq<Event>, n: nat)
    requires 0 < n <= |events|
    ensures var t := p.apply(proj, events[0]).0;
            Chained(p, proj, events, n) == [Fact(events[0], p.digest(t))] + Chained(p, t, events[1..], n - 1)
  {
    hide Reached;
    var t, rest := p.apply(proj, events[0]).0, events[1..];
    NothingReached(p, t, rest);
    forall k | 0 <= k < n ensures Reached(p, proj, events[..k + 1]) == Reached(p, t, rest[..k]) {
      ReachedLater(p, proj, events, k);
    }
    assert forall k :: 0 < k < n ==> rest[..(k - 1) + 1] == rest[..k] && events[k] == rest[k - 1];
  }

  /**
   * Up to the first event that cannot be applied, exactly these facts are chained, in order;
   * and the projection is where the events so far, the failed one included, left it.
   */
  lemma {:induction false} ChainedSteps<S>(p: Projection<S>, s: Standing<S>, events: seq<Event>)
    requires !s.poisoned
    ensures ApplyEach(p, s, events).facts == s.facts + Chained(p, s.proj, events, Applied(p, s.proj, events))
    decreases |events|
  {
    hide Reached, Chained;
    var n := Applied(p, s.proj, events);
    if events == [] || !p.apply(s.proj, events[0]).1 {
      assert s.facts + Chained(p, s.proj, events, 0) == s.facts;
    } else {
      var t, rest := p.apply(s.proj, events[0]).0, events[1..];
      var first := Fact(events[0], p.digest(t));
      ChainedSteps(p, Standing(t, s.facts + [first], false), rest);
      ChainedFirst(p, s.proj, events, n);
      assert s.facts + [first] + Chained(p, t, rest, n - 1) == s.facts + ([first] + Chained(p, t, rest, n - 1));
    }
  }

  predicate AllValid(events: seq<Event>) {
    forall i :: 0 <= i < |events| ==> Valid(events[i])
  }

  /** `Fold`: nothing is applied unless everything is valid. */
  function Folded<S>(p: Projection<S>, s: Standing<S>, events: seq<Event>): Standing<S> {
    if AllValid(events) then ApplyEach(p, s, events) else s
  }

  function FoldBatches<S>(p: Projection<S>, s: Standing<S>, batches: seq<seq<Event>>): Standing<S> {
    if batches == [] then s else Folded(p, FoldBatches(p, s, batches[..|batches| - 1]), batches[|batches| - 1])
  }

  function Flat(batches: seq<seq<Event>>): seq<Event> {
    if batches == [] then [] else Flat(batches[..|batches| - 1]) + batches[|batches| - 1]
  }

  /** However valid events are cut into batches, folding them ends in the same place. */
  lemma {:induction false} BatchingIsInvisible<S>(p: Projection<S>, s: Standing<S>, batches: seq<seq<Event>>)
    requires AllValid(Flat(batches))
    ensures FoldBatches(p, s, batches) == Folded(p, s, Flat(batches))
    decreases |batches|
  {
    hide ApplyEach;
    if batches == [] {
      NothingApplied(p, s);
    } else {
      var init, last := batches[..|batches| - 1], batches[|batches| - 1];
      var all := Flat(batches);
      assert forall i :: 0 <= i < |Flat(init)| ==> Flat(init)[i] == all[i];
      assert forall i :: 0 <= i < |last| ==> last[i] == all[|Flat(init)| + i];
      BatchingIsInvisible(p, s, init);
      ApplyInTwo(p, s, Flat(init), last);
    }
  }

  lemma NothingApplied<S>(p: Projection<S>, s: Standing<S>)
    ensures ApplyEach(p, s, []) == s
  {
  }

  // ---- A live run ----

  type Decider<!S> = (S, Command) -> Result<seq<Event>, ()>

  /** The clock's reading on every event, and the command's key on those without one. */
  function Stamped(events: seq<Event>, cmd: Command, now: int64): (r: seq<Event>)
    ensures |r| == |events|
  {
    seq(|events|, i requires 0 <= i < |events| =>
      events[i].(time := now, key := if events[i].key == [] then cmd.key else events[i].key))
  }

  /** The decider is asked: the cycle is not poisoned, and the command has a name and a key that fits. */
  ghost predicate Consulted(poison: bool, cmd: Command) {
    !poison && cmd.name != [] && |cmd.key| <= 65_535
  }

  /** `e` is what the decider made, at the clock's time and under some key. */
  ghost predicate Stamps(made: Event, cmd: Command, now: int64, e: Event) {
    && e.time == now && e.schema == made.schema && e.payload == made.payload
    && e.key == if made.key != [] then made.key else cmd.key
  }

  /** Event `at` is the first that is not valid once it is stamped. */
  ghost predicate FirstInvalid(made: seq<Event>, cmd: Command, now: int64, at: nat) {
    && at < |made|
    && (exists e :: Stamps(made[at], cmd, now, e) && !Valid(e))
    && forall k, e :: 0 <= k < at && Stamps(made[k], cmd, now, e) ==> Valid(e)
  }

  lemma StampedStamps(made: seq<Event>, cmd: Command, now: int64)
    ensures forall k :: 0 <= k < |made| ==> Stamps(made[k], cmd, now, Stamped(made, cmd, now)[k])
  {
  }

  lemma OnlyOneStamp(made: Event, cmd: Command, now: int64, d: Event, e: Event)
    requires Stamps(made, cmd, now, d) && Stamps(made, cmd, now, e)
    ensures d == e
  {
  }

  lemma FirstInvalidIs(made: seq<Event>, cmd: Command, now: int64, at: nat)
    ensures var r := Stamped(made, cmd, now);
            FirstInvalid(made, cmd, now, at) <==> at < |made| && !Valid(r[at]) && forall k :: 0 <= k < at ==> Valid(r[k])
  {
    hide Valid, Stamps, Stamped;
    var r := Stamped(made, cmd, now);
    StampedStamps(made, cmd, now);
    forall k, e | 0 <= k < |made| && Stamps(made[k], cmd, now, e) ensures e == r[k] {
      OnlyOneStamp(made[k], cmd, now, e, r[k]);
    }
  }

  /** `Submit`: where it leaves the cycle, and the events it returns. */
  function Submitted<S>(p: Projection<S>, decide: Decider<S>, s: Standing<S>, cmd: Command, now: int64): (Standing<S>, seq<Event>) {
    if s.poisoned || !ValidCommand(cmd) || decide(s.proj, cmd).Err? then (s, [])
    else
      var events := Stamped(decide(s.proj, cmd).value, cmd, now);
      if !AllValid(events) then (s, [])
      else
        var t := ApplyEach(p, s, events);
        (t, if t.poisoned then [] else events)
  }

  datatype Submission = Submission(cmd: Command, now: int64)

  /** A run of commands: where it ends, and every event it returned. */
  function Live<S>(p: Projection<S>, decide: Decider<S>, s: Standing<S>, cmds: seq<Submission>): (Standing<S>, seq<Event>) {
    if cmds == [] then (s, [])
    else
      var (t, events) := Live(p, decide, s, cmds[..|cmds| - 1]);
      var (u, more) := Submitted(p, decide, t, cmds[|cmds| - 1].cmd, cmds[|cmds| - 1].now);
      (u, events + more)
  }

  /** Folding the events a live run returned, from where it began, ends where it did, chain and all. */
  lemma {:induction false} LiveIsReplay<S>(p: Projection<S>, decide: Decider<S>, s: Standing<S>, cmds: seq<Submission>)
    requires !Live(p, decide, s, cmds).0.poisoned
    ensures AllValid(Live(p, decide, s, cmds).1)
    ensures Folded(p, s, Live(p, decide, s, cmds).1) == Live(p, decide, s, cmds).0
    decreases |cmds|
  {
    hide ApplyEach, Stamped;
    if cmds == [] {
      NothingApplied(p, s);
    } else {
      var n := |cmds| - 1;
      var (t, events) := Live(p, decide, s, cmds[..n]);
      var (u, more) := Submitted(p, decide, t, cmds[n].cmd, cmds[n].now);
      PoisonLasts(p, decide, t, cmds[n].cmd, cmds[n].now);
      LiveIsReplay(p, decide, s, cmds[..n]);
      assert forall i :: 0 <= i < |more| ==> Valid(more[i]);
      ApplyInTwo(p, s, events, more);
      NothingApplied(p, t);
    }
  }

  lemma PoisonLasts<S>(p: Projection<S>, decide: Decider<S>, s: Standing<S>, cmd: Command, now: int64)
    ensures s.poisoned ==> Submitted(p, decide, s, cmd, now) == (s, [])
    ensures AllValid(Submitted(p, decide, s, cmd, now).1)
    ensures !Submitted(p, decide, s, cmd, now).0.poisoned ==>
              Submitted(p, decide, s, cmd, now).0 == ApplyEach(p, s, Submitted(p, decide, s, cmd, now).1)
  {
    NothingApplied(p, s);
  }

  /** So is folding what a cursor delivers of a log that holds those events and was never compacted. */
  lemma LiveIsReadBack<S>(p: Projection<S>, decide: Decider<S>, s: Standing<S>, cmds: seq<Submission>, log: State, out: seq<Rec>)
    requires !Live(p, decide, s, cmds).0.poisoned
    requires Inv(log) && Gapless(log) && log.hist == Live(p, decide, s, cmds).1
    requires Delivered(0, |log.hist|, log.segs, log.hist, out)
    ensures Folded(p, s, EventsOf(out)) == Live(p, decide, s, cmds).0
  {
    hide Live, Folded, Inv, Gapless, Delivered;
    WholeDelivery(log, 0, out);
    assert log.hist[0..] == log.hist;
    LiveIsReplay(p, decide, s, cmds);
  }

  class Cycle<S> {
    const p: Projection<S>
    const decide: Decider<S>
    const chain: Chain
    var proj: S
    var poison: bool

    ghost predicate Valid()
      reads this, chain
    {
      chain.Valid()
    }

    ghost function View(): Standing<S>
      reads this, chain
    {
      Standing(proj, chain.facts, poison)
    }

    constructor (p: Projection<S>, decide: Decider<S>, proj: S, H: bytes -> Digest)
      ensures Valid() && fresh(chain) && chain.H == H && this.p == p && this.decide == decide
      ensures View() == Standing(proj, [], false)
    {
      this.p, this.decide, this.proj, poison := p, decide, proj, false;
      chain := new Chain(H);
    }

    /** `apply`: a validated batch, one chain step per event, until one fails. */
    method Apply(events: seq<Event>) returns (err: Option<CycleError>)
      requires Valid() && !poison
      modifies this, chain
      ensures Valid() && View() == ApplyEach(p, old(View()), events)
      ensures err == if View().poisoned then Some(Poisoned) else None
    {
      hide Digested, LastChange;
      ghost var before := View();
      err := None;
      for i := 0 to |events|
        invariant Valid() && !poison && err.None?
        invariant ApplyEach(p, before, events) == ApplyEach(p, View(), events[i..])
      {
        var (next, ok) := p.apply(proj, events[i]);
        assert events[i..][0] == events[i] && events[i..][1..] == events[i + 1..];
        proj := next;
        if !ok {
          poison := true;
          return Some(Poisoned);
        }
        chain.Advance(events[i], p.digest(proj));
      }
      assert events[|events|..] == [];
    }

    /** `Fold`: facts that already exist, validated because anything off a disk is untrusted. */
    method Fold(events: seq<Event>) returns (err: Option<CycleError>)
      requires Valid()
      modifies this, chain
      ensures Valid() && View() == Folded(p, old(View()), events)
      ensures old(poison) ==> err == Some(Poisoned)
      ensures !old(poison) && !AllValid(events) ==>
                err.Some? && err.value.InvalidEvent? && err.value.at < |events|
                && !Events.Valid(events[err.value.at]) && AllValid(events[..err.value.at])
      ensures !old(poison) && AllValid(events) ==> err == if View().poisoned then Some(Poisoned) else None
    {
      hide ApplyEach, Digested, LastChange;
      if poison {
        StaysPoisoned(p, View(), events);
        return Some(Poisoned);
      }
      for i := 0 to |events|
        invariant forall k :: 0 <= k < i ==> Events.Valid(events[k])
      {
        if !Events.Valid(events[i]) {
          return Some(InvalidEvent(i));
        }
      }
      err := Apply(events);
    }

    /** `Submit`: nothing is applied unless the decider agrees and every event it made validates. */
    method Submit(cmd: Command, now: int64) returns (events: seq<Event>, err: Option<CycleError>)
      requires Valid()
      modifies this, chain
      ensures Valid() && (View(), events) == Submitted(p, decide, old(View()), cmd, now)
      ensures err.Some? && (old(poison) || err.value != Poisoned) ==> View() == old(View())
      ensures err == Some(Poisoned) <==> View().poisoned
      ensures err == Some(InvalidCommand) <==> !old(poison) && (cmd.name == [] || |cmd.key| > 65_535)
      ensures err == Some(Rejected) <==> Consulted(old(poison), cmd) && decide(old(proj), cmd).Err?
      ensures forall at :: err == Some(InvalidEvent(at)) <==>
                Consulted(old(poison), cmd) && decide(old(proj), cmd).Ok? && FirstInvalid(decide(old(proj), cmd).value, cmd, now, at)
      ensures err.Some? ==> events == []
      ensures err.None? ==>
                && Consulted(old(poison), cmd) && decide(old(proj), cmd).Ok?
                && var made := decide(old(proj), cmd).value;
                   |events| == |made| && forall k :: 0 <= k < |made| ==> Stamps(made[k], cmd, now, events[k])
    {
      hide ApplyEach, Digested, LastChange, Stamps, FirstInvalid;
      events, err := [], None;
      if poison {
        return [], Some(Poisoned);
      }
      if !ValidCommand(cmd) {
        return [], Some(InvalidCommand);
      }
      var decided := decide(proj, cmd);
      if decided.Err? {
        return [], Some(Rejected);
      }
      var made := decided.value;
      ghost var stamped := Stamped(made, cmd, now);
      StampedStamps(made, cmd, now);
      forall at: nat ensures FirstInvalid(made, cmd, now, at) <==>
                               at < |made| && !Events.Valid(stamped[at]) && forall k :: 0 <= k < at ==> Events.Valid(stamped[k])
      {
        FirstInvalidIs(made, cmd, now, at);
      }
      if made == [] {
        NothingApplied(p, View());
        assert stamped == [];
        return [], None;
      }
      for i := 0 to |made|
        invariant |made| == |stamped| && made[..i] == stamped[..i] && made[i..] == decided.value[i..]
        invariant forall k :: 0 <= k < i ==> Events.Valid(stamped[k])
      {
        assert made[i] == decided.value[i];
        made := made[i := made[i].(time := now, key := if made[i].key == [] then cmd.key else made[i].key)];
        assert made[..i + 1] == made[..i] + [made[i]] == stamped[..i + 1];
        if !Events.Valid(made[i]) {
          return [], Some(InvalidEvent(i));
        }
      }
      assert made[..|made|] == made && stamped[..|made|] == stamped;
      err := Apply(made);
      if err.None? {
        events := made;
      }
    }
  }

  lemma StaysPoisoned<S>(p: Projection<S>, s: Standing<S>, events: seq<Event>)
    ensures s.poisoned ==> ApplyEach(p, s, events) == s
  {
  }
}
