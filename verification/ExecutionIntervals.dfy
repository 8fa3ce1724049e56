/** The sequential execution check: each command starts after the one before it has finished, and its recorded
    duration agrees with its interval to within a second. */
module ExecutionIntervals {
  import opened Wrappers

  /** One recorded execution; `sound` stands for the checks of its name, arguments, user, exit code and flags. */
  datatype Execution = Execution(start: int, finish: int, durationMs: real, outerTimeoutMs: real, sound: bool)

  const NANOS_PER_MS: real := 1000000.0
  const SLACK_MS: real := 1000.0

  function SpanMs(from: int, to: int): real {
    (to - from) as real / NANOS_PER_MS
  }

  predicate OneOk(e: Execution, previousFinished: int) {
    && e.sound && 0.0 < e.durationMs < e.outerTimeoutMs
    && e.start >= previousFinished && e.finish > e.start
    && -SLACK_MS < SpanMs(e.start, e.finish) - e.durationMs < SLACK_MS
  }

  function PreviousFinish(es: seq<Execution>, i: nat): int
    requires i <= |es|
  {
    if i == 0 then 0 else es[i - 1].finish
  }

  predicate OkAt(es: seq<Execution>, i: nat) {
    i < |es| && OneOk(es[i], PreviousFinish(es, i))
  }

  /** What the loop requires of its first `n` executions. */
  ghost predicate Sequential(es: seq<Execution>, n: nat) {
    forall i: nat :: i < n ==> OkAt(es, i)
  }

  /** A sound execution that ends within its outer timeout, starts when the one before it has ended, and lasts, to
      within a second, as long as it says. */
  ghost predicate InTurn(es: seq<Execution>, i: nat) {
    && i < |es| && es[i].sound && 0.0 < es[i].durationMs < es[i].outerTimeoutMs
    && (if i == 0 then 0 else es[i - 1].finish) <= es[i].start < es[i].finish
    && es[i].durationMs - 1000.0 < (es[i].finish - es[i].start) as real / 1000000.0 < es[i].durationMs + 1000.0
  }

  method CheckExecutions(raw: seq<Execution>) returns (executions: Option<seq<Execution>>)
    ensures executions.Some? <==> Sequential(raw, |raw|)
    ensures executions.Some? <==>
      forall i: nat :: i < |raw| ==> InTurn(raw, i)
    ensures executions.Some? ==> executions.value == raw
  {
    SequentialIff(raw);
    var previousFinished := 0;
    var accepted: seq<Execution> := [];
    for index := 0 to |raw|
      invariant Sequential(raw, index) && accepted == raw[..index]
      invariant previousFinished == PreviousFinish(raw, index)
    {
      if !OneOk(raw[index], previousFinished) {
        assert !OkAt(raw, index);
        return None;
      }
      previousFinished := raw[index].finish;
      accepted := accepted + [raw[index]];
    }
    executions := Some(accepted);
  }

  lemma SequentialIff(es: seq<Execution>)
    ensures Sequential(es, |es|) <==> forall i: nat :: i < |es| ==> InTurn(es, i)
  {
    if Sequential(es, |es|) {
      forall i | 0 <= i < |es|
        ensures InTurn(es, i)
      {
        assert OkAt(es, i);
      }
    } else {
      var i: nat :| i < |es| && !OkAt(es, i);
      assert !InTurn(es, i);
    }
  }

  /** Accepted executions never overlap: each finishes no later than any later one starts. */
  lemma {:induction false} NeverOverlap(es: seq<Execution>, i: nat, j: nat)
    requires Sequential(es, |es|) && i < j < |es|
    ensures es[i].finish <= es[j].start
    decreases j - i
  {
    assert OkAt(es, j);
    if i < j - 1 {
      NeverOverlap(es, i, j - 1);
      assert OkAt(es, j - 1);
    }
  }

  function TotalMs(es: seq<Execution>): real {
    if es == [] then 0.0 else TotalMs(es[..|es| - 1]) + es[|es| - 1].durationMs
  }

  lemma SpansAdd(a: int, b: int, c: int, d: int)
    requires a <= b <= c <= d
    ensures SpanMs(a, b) + SpanMs(c, d) <= SpanMs(a, d)
  {
    assert (b - a) as real + (d - c) as real <= (d - a) as real;
  }

  /** The recorded durations together are less than the span of the whole run plus a second each. */
  lemma {:induction false} DurationsFitTheSpan(es: seq<Execution>)
    requires es != [] && Sequential(es, |es|)
    ensures TotalMs(es)
          < (es[|es| - 1].finish - es[0].start) as real / 1000000.0 + |es| as real * 1000.0
    decreases |es|
  {
    var last := |es| - 1;
    var front := es[..last];
    if last == 0 {
      assert OkAt(es, 0);
      assert TotalMs(front) == 0.0;
    } else {
      assert OkAt(es, last);
      forall i: nat | i < last
        ensures OkAt(front, i)
      {
        assert OkAt(es, i);
      }
      DurationsFitTheSpan(front);
      SpanIsForward(es, last - 1);
      SpansAdd(es[0].start, es[last - 1].finish, es[last].start, es[last].finish);
    }
  }

  lemma SpanIsForward(es: seq<Execution>, k: nat)
    requires Sequential(es, |es|) && k < |es|
    ensures es[0].start <= es[k].finish
  {
    assert OkAt(es, k);
    if k > 0 {
      assert OkAt(es, 0);
      NeverOverlap(es, 0, k);
    }
  }
}
