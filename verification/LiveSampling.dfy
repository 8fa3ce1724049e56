/** The coordinator's live sampling: at least fifteen seconds apart, inside the deadline, at most 121 times. */
module LiveSampling {
  const DEADLINE: real := 1800.0
  const INTERVAL: real := 15.0
  const SAMPLE_LIMIT: nat := 121

  /** The four clock readings one turn of the read loop takes, in this order. */
  datatype Turn = Turn(deadline: real, interval: real, recorded: real, saved: real)

  datatype Sampler = Sampler(live: nat, lastLive: real, now: real)

  /** Clock readings never go back. */
  predicate Forward(s: Sampler, t: Turn) {
    s.now <= t.deadline <= t.interval <= t.recorded <= t.saved
  }

  /** One turn: nothing is sampled once the deadline has passed. */
  function Take(start: real, s: Sampler, t: Turn): Sampler {
    if t.deadline - start >= DEADLINE then s.(now := t.deadline)
    else if t.interval - s.lastLive >= INTERVAL then Sampler(s.live + 1, t.saved, t.saved)
    else s.(now := t.interval)
  }

  function TakeAll(start: real, s: Sampler, turns: seq<Turn>): Sampler {
    if turns == [] then s else Take(start, TakeAll(start, s, turns[..|turns| - 1]), turns[|turns| - 1])
  }

  ghost predicate AllForward(start: real, s: Sampler, turns: seq<Turn>) {
    forall i :: 0 <= i < |turns| ==> Forward(TakeAll(start, s, turns[..i]), turns[i])
  }

  /** The k-th sample is saved no earlier than 15 (k - 1) seconds after the start. */
  ghost predicate Spaced(start: real, s: Sampler) {
    && s.live <= SAMPLE_LIMIT && start <= s.now && s.lastLive <= s.now
    && (s.live > 0 ==> s.lastLive >= start + INTERVAL * (s.live - 1) as real)
  }

  lemma TakeIsSpaced(start: real, s: Sampler, t: Turn)
    requires Spaced(start, s) && Forward(s, t)
    ensures Spaced(start, Take(start, s, t))
  {
    if t.deadline - start < DEADLINE && t.interval - s.lastLive >= INTERVAL && s.live > 0 {
      assert INTERVAL * (s.live - 1) as real < DEADLINE;
      assert (s.live - 1) as real < 120.0;
      assert INTERVAL * s.live as real == INTERVAL * (s.live - 1) as real + INTERVAL;
    }
  }

  /** The limit on the list is never exceeded, in any run, however long the loop takes between its readings. */
  lemma {:induction false} LimitNeverExceeded(start: real, turns: seq<Turn>)
    requires 0.0 <= start && AllForward(start, Sampler(0, 0.0, start), turns)
    ensures TakeAll(start, Sampler(0, 0.0, start), turns).live <= SAMPLE_LIMIT
    ensures Spaced(start, TakeAll(start, Sampler(0, 0.0, start), turns))
    decreases |turns|
  {
    if turns != [] {
      var front := turns[..|turns| - 1];
      forall i | 0 <= i < |front|
        ensures Forward(TakeAll(start, Sampler(0, 0.0, start), front[..i]), front[i])
      {
        assert front[..i] == turns[..i];
      }
      LimitNeverExceeded(start, front);
      TakeIsSpaced(start, TakeAll(start, Sampler(0, 0.0, start), front), turns[|turns| - 1]);
    }
  }

  /** A schedule that samples as often as it can: each turn checks the deadline at once and is then held up
      until the interval has passed. */
  function Eager(n: nat): (turns: seq<Turn>)
    ensures |turns| == n
  {
    if n == 0 then []
    else
      var checked := if n == 1 then INTERVAL else INTERVAL * (n - 1) as real;
      var at := INTERVAL * n as real;
      Eager(n - 1) + [Turn(checked, at, at, at)]
  }

  /** The limit is the exact one: a run of 121 samples exists. */
  lemma {:induction false} LimitIsReached(n: nat)
    requires n <= SAMPLE_LIMIT
    ensures AllForward(INTERVAL, Sampler(0, 0.0, INTERVAL), Eager(n))
    ensures n > 0 ==>
      TakeAll(INTERVAL, Sampler(0, 0.0, INTERVAL), Eager(n)) == Sampler(n, INTERVAL * n as real, INTERVAL * n as real)
    decreases n
  {
    if n > 0 {
      var turns, zero := Eager(n), Sampler(0, 0.0, INTERVAL);
      LimitIsReached(n - 1);
      assert turns[..n - 1] == Eager(n - 1);
      if n > 1 {
        assert (n - 1) as real <= 120.0;
        assert INTERVAL * n as real == INTERVAL * (n - 1) as real + INTERVAL;
      }
      forall i | 0 <= i < n
        ensures Forward(TakeAll(INTERVAL, zero, turns[..i]), turns[i])
      {
        if i < n - 1 {
          assert turns[..i] == Eager(n - 1)[..i] && turns[i] == Eager(n - 1)[i];
        }
      }
    }
  }

  class LiveList {
    const start: real
    var live: nat
    var lastLive: real
    ghost var now: real

    ghost function View(): Sampler
      reads this
    {
      Sampler(live, lastLive, now)
    }

    constructor (start: real)
      requires 0.0 <= start
      ensures this.start == start && View() == Sampler(0, 0.0, start) && Spaced(start, View())
    {
      this.start, live, lastLive, now := start, 0, 0.0, start;
    }

    /** One turn; the source's assertion on the length of the list always holds here. */
    method Sample(t: Turn) returns (expired: bool, withinLimit: bool)
      requires Spaced(start, View()) && Forward(View(), t)
      modifies this
      ensures View() == Take(start, old(View()), t) && Spaced(start, View())
      ensures expired == (t.deadline - start >= 1800.0) && withinLimit
      ensures var due := !expired && t.interval - old(lastLive) >= 15.0;
        && live == old(live) + (if due then 1 else 0) && live <= 121
        && lastLive == if due then t.saved else old(lastLive)
    {
      TakeIsSpaced(start, View(), t);
      expired, withinLimit := t.deadline - start >= DEADLINE, true;
      if expired {
        now := t.deadline;
        return;
      }
      if t.interval - lastLive >= INTERVAL {
        live := live + 1;
        withinLimit := live <= SAMPLE_LIMIT;
        lastLive := t.saved;
        now := t.saved;
      } else {
        now := t.interval;
      }
    }
  }
}
