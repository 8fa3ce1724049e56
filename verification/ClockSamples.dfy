/** Clock observations: jumps of the wall clock against the monotonic clock, and the order of readings. */
module ClockSamples {
  import opened Wrappers

  const TOLERANCE: int := 100000000  // nanoseconds

  datatype Sample = Sample(monotonicBefore: int, monotonicAfter: int, epoch: int)

  datatype Jump = Jump(index: nat, difference: int)

  /** How much more the wall clock advanced than the monotonic clock on the way to sample `i`. */
  function Difference(samples: seq<Sample>, i: nat): int
    requires 0 < i < |samples|
  {
    samples[i].epoch - samples[i - 1].epoch - (samples[i].monotonicBefore - samples[i - 1].monotonicBefore)
  }

  predicate IsJump(difference: int) {
    difference < -TOLERANCE || difference > TOLERANCE
  }

  /** The jumps among the first `n` samples. */
  function Jumps(samples: seq<Sample>, n: nat): (jumps: seq<Jump>)
    requires n <= |samples|
    ensures forall j :: j in jumps <==>
      0 < j.index < n && j.difference == Difference(samples, j.index) && IsJump(j.difference)
    ensures forall a, b :: 0 <= a < b < |jumps| ==> jumps[a].index < jumps[b].index
  {
    if n <= 1 then []
    else Jumps(samples, n - 1)
         + if IsJump(Difference(samples, n - 1)) then [Jump(n - 1, Difference(samples, n - 1))] else []
  }

  /** In order and each once, exactly the places where the wall clock gained or lost more than 100 ms over the
      monotonic clock. */
  ghost predicate ListsJumps(samples: seq<Sample>, jumps: seq<Jump>) {
    && (forall a, b :: 0 <= a < b < |jumps| ==> jumps[a].index < jumps[b].index)
    && forall j :: j in jumps <==>
         && 0 < j.index < |samples|
         && j.difference == (samples[j.index].epoch - samples[j.index - 1].epoch)
                            - (samples[j.index].monotonicBefore - samples[j.index - 1].monotonicBefore)
         && !(-100000000 <= j.difference <= 100000000)
  }

  lemma JumpsAreListed(samples: seq<Sample>)
    ensures ListsJumps(samples, Jumps(samples, |samples|))
  {}

  method FindJumps(samples: seq<Sample>) returns (jumps: Option<seq<Jump>>)
    ensures jumps.Some? <==>
      && |samples| > 1
      && (forall i :: 0 <= i < |samples| ==> samples[i].monotonicBefore <= samples[i].monotonicAfter)
      && (forall i :: 0 < i < |samples| ==> samples[i - 1].monotonicBefore <= samples[i].monotonicBefore)
    ensures jumps.Some? ==> jumps.value == Jumps(samples, |samples|) && ListsJumps(samples, jumps.value)
  {
    if |samples| <= 1 {
      return None;
    }
    var found: seq<Jump> := [];
    for index := 0 to |samples|
      invariant forall i :: 0 <= i < index ==> samples[i].monotonicAfter >= samples[i].monotonicBefore
      invariant forall i :: 0 < i < index ==> samples[i].monotonicBefore >= samples[i - 1].monotonicBefore
      invariant found == Jumps(samples, index)
    {
      var sample := samples[index];
      if sample.monotonicAfter < sample.monotonicBefore {
        return None;
      }
      if index == 0 {
        continue;
      }
      var prior := samples[index - 1];
      var elapsed := sample.monotonicBefore - prior.monotonicBefore;
      if elapsed < 0 {
        return None;
      }
      var difference := sample.epoch - prior.epoch - elapsed;
      if difference < -TOLERANCE || difference > TOLERANCE {
        found := found + [Jump(index, difference)];
      }
    }
    JumpsAreListed(samples);
    jumps := Some(found);
  }

  function Total(jumps: seq<Jump>): int {
    if jumps == [] then 0 else Total(jumps[..|jumps| - 1]) + jumps[|jumps| - 1].difference
  }

  /** What the wall clock gained over the monotonic clock across the first `n` samples. */
  function Drift(samples: seq<Sample>, n: nat): int
    requires 0 < n <= |samples|
  {
    (samples[n - 1].epoch - samples[0].epoch) - (samples[n - 1].monotonicBefore - samples[0].monotonicBefore)
  }

  /** The flagged jumps account for the drift of the whole run, up to the tolerance for each step that was
      not flagged. */
  lemma {:induction false} JumpsAccountForDrift(samples: seq<Sample>, n: nat)
    requires 0 < n <= |samples|
    ensures var jumps := Jumps(samples, n);
      var unexplained := Drift(samples, n) - Total(jumps);
      var quiet := n - 1 - |jumps|;
      quiet >= 0 && -(quiet * 100000000) <= unexplained <= quiet * 100000000
    decreases n
  {
    if n > 1 {
      JumpsAccountForDrift(samples, n - 1);
      var front, all := Jumps(samples, n - 1), Jumps(samples, n);
      if IsJump(Difference(samples, n - 1)) {
        assert all[..|all| - 1] == front;
      } else {
        assert all == front;
      }
    }
  }

  // ----- The guest's readings -----

  /** The loop over the guest's samples. */
  method CheckOrder(samples: seq<Sample>) returns (ordered: bool)
    ensures ordered <==>
      |samples| > 1
      && forall i :: 0 < i < |samples| ==>
           samples[i - 1].epoch <= samples[i].epoch && samples[i - 1].monotonicAfter <= samples[i].monotonicBefore
  {
    if |samples| <= 1 {
      return false;
    }
    for index := 1 to |samples|
      invariant forall i :: 0 < i < index ==>
        samples[i].epoch >= samples[i - 1].epoch && samples[i].monotonicBefore >= samples[i - 1].monotonicAfter
    {
      if samples[index].epoch < samples[index - 1].epoch
         || samples[index].monotonicBefore < samples[index - 1].monotonicAfter {
        return false;
      }
    }
    ordered := true;
  }

  ghost predicate Adjacent(samples: seq<Sample>) {
    forall i :: 0 < i < |samples| ==>
      samples[i].epoch >= samples[i - 1].epoch && samples[i].monotonicBefore >= samples[i - 1].monotonicAfter
  }

  /** Accepted epochs never go back, between any two samples. */
  lemma {:induction false} EpochsRise(samples: seq<Sample>, i: nat, j: nat)
    requires Adjacent(samples) && i <= j < |samples|
    ensures samples[i].epoch <= samples[j].epoch
    decreases j - i
  {
    if i < j {
      EpochsRise(samples, i, j - 1);
      assert samples[j].epoch >= samples[j - 1].epoch;
    }
  }

  /** Every interior reading is bracketed in order; the loop itself does not check this. */
  ghost predicate Bracketed(samples: seq<Sample>) {
    forall i :: 0 < i < |samples| - 1 ==> samples[i].monotonicBefore <= samples[i].monotonicAfter
  }

  /** Accepted and bracketed readings never overlap, between any two samples. */
  lemma {:induction false} ReadingsAreApart(samples: seq<Sample>, i: nat, j: nat)
    requires Adjacent(samples) && Bracketed(samples) && i < j < |samples|
    ensures samples[i].monotonicAfter <= samples[j].monotonicBefore
    decreases j - i
  {
    assert samples[j].monotonicBefore >= samples[j - 1].monotonicAfter;
    if i < j - 1 {
      ReadingsAreApart(samples, i, j - 1);
      assert samples[j - 1].monotonicBefore <= samples[j - 1].monotonicAfter;
    }
  }

  /** The loop's own check does not reach beyond neighbours: one reading keeps every pair of readings around
      it apart exactly when it is bracketed in order. */
  lemma BracketingDecides(s: Sample)
    ensures s.monotonicBefore <= s.monotonicAfter <==>
      forall p: Sample, n: Sample :: Adjacent([p, s, n]) ==> p.monotonicAfter <= n.monotonicBefore
  {
    if s.monotonicBefore <= s.monotonicAfter {
      forall p: Sample, n: Sample | Adjacent([p, s, n])
        ensures p.monotonicAfter <= n.monotonicBefore
      {
        var samples := [p, s, n];
        assert samples[1].monotonicBefore >= samples[0].monotonicAfter;
        assert samples[2].monotonicBefore >= samples[1].monotonicAfter;
      }
    } else {
      var p, n := Sample(0, s.monotonicBefore, s.epoch), Sample(s.monotonicAfter, 0, s.epoch);
      assert Adjacent([p, s, n]);
    }
  }
}
