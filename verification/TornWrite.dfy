/** A guest write that fails part-way through a frame: the torn frame runs into whatever the guest sends next, and
    success still means what it meant. */
module TornWrite {
  import opened Framing
  import opened Wrappers
  import opened HostJob
  import opened HostTranscript
  import opened GuestJob
  import opened JobChannel
  import opened JobWire
  import opened JobInvariant
  import opened JobTransfer

  /** A torn frame and the next one, read as one line, are not a message of this job. */
  ghost predicate TornUnreadable(w: World) {
    forall b, c, n: nat {:trigger w.text(b)[..n], w.text(c)} ::
      Sendable(b) && Sendable(c) && 0 < n <= |w.text(b)| ==> !Authentic(w, w.text(b)[..n] + w.text(c))
  }

  /** Part of a line has been written, and part has not. */
  ghost predicate Torn(w: World, g: Guest) {
    g.outgoing != [] && History(g) != [] && |g.outgoing| <= |w.text(History(g)[|History(g)| - 1])|
  }

  /** What has been written of the line. */
  function Fragment(w: World, g: Guest): seq<Byte>
    requires Torn(w, g)
  {
    var text := w.text(History(g)[|History(g)| - 1]);
    text[..|text| + 1 - |g.outgoing|]
  }

  /** What a guest that was torn off sends next begins with a frame of its own; the rest may be anything. */
  ghost predicate BeginsWithFrame(w: World, more: seq<Byte>) {
    LF in more ==> exists c :: Sendable(c) && more[..IndexOf(more, LF)] == w.text(c)
  }

  lemma DropEnd(a: seq<Byte>, out: seq<Byte>, front: seq<Byte>, line: seq<Byte>)
    requires a + out == front + line && |out| <= |line|
    ensures a == front + line[..|line| - |out|]
  {
    assert a == (a + out)[..|a|];
    assert |a| == |front| + (|line| - |out|);
  }

  /** The bytes that reached the wire: whole lines and the fragment. */
  lemma WireOfTorn(w: World, s: Sys)
    requires WireKept(w, s) && Torn(w, s.guest)
    ensures var hist := History(s.guest);
      Join(s.host.lines) + s.host.buffer + s.up
      == Join(Texts(w, hist[..|hist| - 1])) + Fragment(w, s.guest)
  {
    var hist := History(s.guest);
    var front, b := hist[..|hist| - 1], hist[|hist| - 1];
    assert hist == front + [b];
    JoinNext(w, front, b);
    Regrouped(Join(s.host.lines), s.host.buffer, s.up, s.guest.outgoing);
    DropEnd(Join(s.host.lines) + s.host.buffer + s.up, s.guest.outgoing, Join(Texts(w, front)), Line(w.text(b)));
    FragmentOfLine(w.text(b), |s.guest.outgoing|);
  }

  lemma Regrouped(a: seq<Byte>, b: seq<Byte>, c: seq<Byte>, d: seq<Byte>)
    ensures a + (b + (c + d)) == a + b + c + d
  {}

  lemma FragmentOfLine(text: seq<Byte>, n: nat)
    requires 0 < n <= |text|
    ensures Line(text)[..|Line(text)| - n] == text[..|text| + 1 - n]
  {}

  /** The first line of the torn fragment and what follows, if there is one, is no message of this job. */
  lemma TornLine(w: World, b: Body, n: nat, more: seq<Byte>)
    requires Faithful(w) && TornUnreadable(w) && Sendable(b) && 0 < n <= |w.text(b)| && BeginsWithFrame(w, more)
    ensures var lines := Lines(w.text(b)[..n] + more); lines != [] ==> !Authentic(w, lines[0])
  {
    var fragment := w.text(b)[..n];
    assert LF !in fragment;
    if LF in more {
      var c :| Sendable(c) && more[..IndexOf(more, LF)] == w.text(c);
      var rest := more[IndexOf(more, LF) + 1..];
      SplitAt(more, IndexOf(more, LF));
      Regroup3(fragment, w.text(c), [LF], rest);
      assert LF !in fragment + w.text(c);
      FirstLine(fragment + w.text(c), rest);
    }
  }

  lemma Regroup3(a: seq<Byte>, b: seq<Byte>, c: seq<Byte>, d: seq<Byte>)
    ensures a + (b + c + d) == (a + b) + c + d
  {}

  /** A claim among lines that follow a history, up to a line that is no message, is a claim of the history. */
  lemma ClaimOfHistory(w: World, hist: seq<Body>, lines: seq<seq<Byte>>, at: nat)
    requires Faithful(w) && AllSendable(hist) && LinesComplete(w, lines, at)
    requires forall i :: 0 <= i < |lines| && i < |hist| ==> lines[i] == w.text(hist[i])
    requires |lines| > |hist| ==> !Authentic(w, lines[|hist|])
    ensures at < |hist| && hist[at].Complete?
    ensures lines[..at + 1] == Texts(w, hist[..at + 1]) && Completes(w, hist[..at + 1], at)
  {
    ClaimIsAuthentic(w, lines, at, |hist|);
    assert lines[..at + 1] == Texts(w, hist[..at + 1]);
    TextsAreAuthentic(w, hist[..at + 1]);
    SameBodies(w, hist[..at + 1], lines[..at + 1]);
  }

  lemma SameBodies(w: World, bodies: seq<Body>, lines: seq<seq<Byte>>)
    requires Faithful(w) && AllSendable(bodies) && lines == Texts(w, bodies) && AllAuthentic(w, lines)
    ensures Bodies(w, lines) == bodies
  {
    forall i | 0 <= i < |bodies|
      ensures Bodies(w, lines)[i] == bodies[i]
    {
      assert lines[i] == w.text(bodies[i]) && Sendable(bodies[i]);
    }
  }

  lemma ClaimIsAuthentic(w: World, lines: seq<seq<Byte>>, at: nat, n: nat)
    requires LinesComplete(w, lines, at)
    ensures Authentic(w, lines[at]) && BodyOf(w, lines[at]).Complete?
    ensures n <= at ==> Authentic(w, lines[n])
  {
    assert lines[..at + 1][at] == lines[at] && lines[at] in lines[..at + 1];
    if n <= at {
      assert lines[..at + 1][n] == lines[n] && lines[n] in lines[..at + 1];
    }
  }

  /** The lines a coordinator hands over after the tear. */
  lemma TornLines(w: World, s: Sys, more: seq<Byte>, chunks: seq<seq<Byte>>)
    requires Faithful(w) && WireKept(w, s) && Torn(w, s.guest) && AllSendable(History(s.guest))
    requires Concat(chunks) <= s.up + more
    ensures var hist, r := History(s.guest), Run(w, s.host, chunks);
      && Synced(w, r) && Synced(w, s.host) && s.host.lines <= r.lines
      && r.lines <= Texts(w, hist[..|hist| - 1]) + Lines(Fragment(w, s.guest) + more)
  {
    var hist, r := History(s.guest), Run(w, s.host, chunks);
    var stream, front := Join(s.host.lines) + s.host.buffer, hist[..|hist| - 1];
    var used := RunIsFraming(w, s.host, stream, chunks);
    WireOfTorn(w, s);
    UsedFront(stream, s.up, more, chunks, used);
    var rest :| stream + Concat(chunks[..used]) + rest == stream + s.up + more;
    MoreLines(stream + Concat(chunks[..used]), rest);
    AppendAssociative(Join(Texts(w, front)), Fragment(w, s.guest), more);
    assert forall i :: 0 <= i < |front| ==> Sendable(front[i]);
    TextsAreAuthentic(w, front);
    LinesThenRest(Texts(w, front), Fragment(w, s.guest) + more);
  }

  lemma UsedFront(stream: seq<Byte>, up: seq<Byte>, more: seq<Byte>, chunks: seq<seq<Byte>>, used: nat)
    requires used <= |chunks| && Concat(chunks) <= up + more
    ensures exists rest :: stream + Concat(chunks[..used]) + rest == stream + up + more
  {
    ConcatSplit(chunks, used);
    Prefixed(Concat(chunks[..used]), Concat(chunks[used..]), up + more);
    var rest :| Concat(chunks[..used]) + rest == up + more;
    AppendAssociative(stream, Concat(chunks[..used]), rest);
    AppendAssociative(stream, up, more);
  }

  lemma Prefixed(a: seq<Byte>, b: seq<Byte>, all: seq<Byte>)
    requires a + b <= all
    ensures exists rest :: a + rest == all
  {
    assert a + b + all[|a + b|..] == all;
    assert a + (b + all[|a + b|..]) == all;
  }

  lemma LinesAgree(w: World, front: seq<Body>, after: seq<seq<Byte>>, lines: seq<seq<Byte>>)
    requires lines <= Texts(w, front) + after && (after != [] ==> !Authentic(w, after[0]))
    ensures forall i :: 0 <= i < |lines| && i < |front| ==> lines[i] == w.text(front[i])
    ensures |lines| > |front| ==> !Authentic(w, lines[|front|])
  {
    var all := Texts(w, front) + after;
    assert forall i :: 0 <= i < |lines| ==> lines[i] == all[i];
  }

  /** What the lines handled after the tear mean, once one of them completes. */
  lemma TornSuccess(w: World, p: Plan, hist: seq<Body>, lines: seq<seq<Byte>>)
    requires Faithful(w) && PlanOk(p) && AllSendable(hist)
    requires forall i :: 0 <= i < |hist| && hist[i].Complete? ==>
      i == |MainBodies(w, p)| - 1 && MainBodies(w, p) <= hist
    requires forall i :: 0 <= i < |lines| && i < |hist| ==> lines[i] == w.text(hist[i])
    requires |lines| > |hist| ==> !Authentic(w, lines[|hist|])
    requires After(w, lines).report.status == Observed
    ensures MainBodies(w, p) <= hist && After(w, lines).file == Some(p.archive)
    ensures After(w, lines).report.archive == Some(Announced(|p.archive|, w.digest(p.archive)))
  {
    StatusIff(w, lines);
    var at: nat :| LinesComplete(w, lines, at);
    ClaimOfHistory(w, hist, lines, at);
    FrontIs(hist, MainBodies(w, p), at);
    LinesBegin(lines, Texts(w, MainBodies(w, p)), at + 1);
    ArchiveStays(w, p, lines);
  }

  lemma FrontIs(hist: seq<Body>, bodies: seq<Body>, at: nat)
    requires bodies <= hist && at + 1 == |bodies|
    ensures hist[..at + 1] == bodies
  {}

  lemma LinesBegin(lines: seq<seq<Byte>>, front: seq<seq<Byte>>, n: nat)
    requires n <= |lines| && lines[..n] == front
    ensures front <= lines
  {}

  /** Where a claim stands among the whole messages of a torn guest. */
  lemma WholeClaims(w: World, p: Plan, g: Guest)
    requires PlanOk(p) && ScriptKept(w, p, g) && History(g) != []
    ensures var front := History(g)[..|History(g)| - 1];
      && AllSendable(front)
      && forall i :: 0 <= i < |front| && front[i].Complete? ==>
           i == |MainBodies(w, p)| - 1 && MainBodies(w, p) <= front
           && !g.mode.Main? && g.mainDone == |MainScript(w, p)| - 1
  {
    var hist := History(g);
    var front := hist[..|hist| - 1];
    HistoryShape(w, p, g);
    forall i | 0 <= i < |front| && front[i].Complete?
      ensures i == |MainBodies(w, p)| - 1 && MainBodies(w, p) <= front
      ensures !g.mode.Main? && g.mainDone == |MainScript(w, p)| - 1
    {
      assert hist[i] == front[i];
      if g.mode.Main? {
        MainIsAll(w, p, g);
      }
    }
  }

  /** The guest had sent its completion claim and failed after it. */
  ghost predicate FailedAfterClaim(w: World, p: Plan, g: Guest) {
    !g.mode.Main? && g.mainDone == |MainScript(w, p)| - 1
  }

  /** A torn write, anywhere in any run, whatever the guest sends afterwards, so long as it begins with a frame of
      its own, and however the coordinator's reads cut it. Success still means that the archive arrived as it was; a
      success already reported stands; and unless the guest had sent its claim whole, there is none. */
  lemma TornWriteIsHarmless(w: World, p: Plan, steps: seq<Step>, more: seq<Byte>, chunks: seq<seq<Byte>>)
    requires Faithful(w) && PlanOk(p) && TornUnreadable(w)
    requires var s := Exec(w, p, steps);
      Torn(w, s.guest) && Concat(chunks) <= s.up + more && BeginsWithFrame(w, more)
    ensures var s := Exec(w, p, steps);
      var r := Run(w, s.host, chunks);
      && (r.job.report.status == Observed ==>
            r.job.file == Some(p.archive)
            && r.job.report.archive == Some(Announced(|p.archive|, w.digest(p.archive))))
      && (s.host.job.report.status == Observed ==> r.job.report.status == Observed)
      && (r.job.report.status == Observed ==> FailedAfterClaim(w, p, s.guest))
  {
    var s := Exec(w, p, steps);
    InvAlways(w, p, steps);
    TornState(w, p, s, more, chunks);
  }

  lemma TornState(w: World, p: Plan, s: Sys, more: seq<Byte>, chunks: seq<seq<Byte>>)
    requires Faithful(w) && PlanOk(p) && TornUnreadable(w) && Inv(w, p, s)
    requires Torn(w, s.guest) && Concat(chunks) <= s.up + more && BeginsWithFrame(w, more)
    ensures var r := Run(w, s.host, chunks);
      && (r.job.report.status == Observed ==>
            r.job.file == Some(p.archive)
            && r.job.report.archive == Some(Announced(|p.archive|, w.digest(p.archive))))
      && (s.host.job.report.status == Observed ==> r.job.report.status == Observed)
      && (r.job.report.status == Observed ==> FailedAfterClaim(w, p, s.guest))
  {
    var lines := Run(w, s.host, chunks).lines;
    TornHandled(w, p, s, more, chunks);
    StandsOn(w, s.host.lines, lines);
    TornVerdict(w, p, s.guest, lines);
  }

  /** The same about the lines alone. */
  lemma TornVerdict(w: World, p: Plan, g: Guest, lines: seq<seq<Byte>>)
    requires Faithful(w) && PlanOk(p) && ScriptKept(w, p, g) && History(g) != []
    requires var front := History(g)[..|History(g)| - 1];
      && (forall i :: 0 <= i < |lines| && i < |front| ==> lines[i] == w.text(front[i]))
      && (|lines| > |front| ==> !Authentic(w, lines[|front|]))
    ensures After(w, lines).report.status == Observed ==>
      && After(w, lines).file == Some(p.archive)
      && After(w, lines).report.archive == Some(Announced(|p.archive|, w.digest(p.archive)))
      && FailedAfterClaim(w, p, g)
  {
    WholeClaims(w, p, g);
    if After(w, lines).report.status == Observed {
      TornSuccess(w, p, History(g)[..|History(g)| - 1], lines);
      ClaimIn(w, p, History(g)[..|History(g)| - 1]);
    }
  }

  lemma ClaimIn(w: World, p: Plan, bodies: seq<Body>)
    requires MainBodies(w, p) <= bodies
    ensures exists i :: 0 <= i < |bodies| && bodies[i].Complete?
  {
    assert bodies[|MainBodies(w, p)| - 1] == MainBodies(w, p)[|MainBodies(w, p)| - 1] == Complete;
  }

  /** The lines handled after the tear: those of the whole messages, then at most the torn one. */
  lemma TornHandled(w: World, p: Plan, s: Sys, more: seq<Byte>, chunks: seq<seq<Byte>>)
    requires Faithful(w) && PlanOk(p) && TornUnreadable(w) && Inv(w, p, s)
    requires Torn(w, s.guest) && Concat(chunks) <= s.up + more && BeginsWithFrame(w, more)
    ensures var front, r := History(s.guest)[..|History(s.guest)| - 1], Run(w, s.host, chunks);
      && Synced(w, r) && Synced(w, s.host) && s.host.lines <= r.lines
      && (forall i :: 0 <= i < |r.lines| && i < |front| ==> r.lines[i] == w.text(front[i]))
      && (|r.lines| > |front| ==> !Authentic(w, r.lines[|front|]))
  {
    var hist := History(s.guest);
    HistoryShape(w, p, s.guest);
    TornLines(w, s, more, chunks);
    FragmentUnread(w, s.guest, more);
    LinesAgree(w, hist[..|hist| - 1], Lines(Fragment(w, s.guest) + more), Run(w, s.host, chunks).lines);
  }

  lemma FragmentUnread(w: World, g: Guest, more: seq<Byte>)
    requires Faithful(w) && TornUnreadable(w) && Torn(w, g) && AllSendable(History(g)) && BeginsWithFrame(w, more)
    ensures var lines := Lines(Fragment(w, g) + more); lines != [] ==> !Authentic(w, lines[0])
  {
    var b := History(g)[|History(g)| - 1];
    assert Sendable(b);
    TornLine(w, b, |w.text(b)| + 1 - |g.outgoing|, more);
  }

  /** More lines do not take a success back. */
  lemma StandsOn(w: World, lines: seq<seq<Byte>>, longer: seq<seq<Byte>>)
    requires lines <= longer
    ensures After(w, lines).report.status == Observed ==> After(w, longer).report.status == Observed
  {
    StatusIff(w, lines);
    StatusIff(w, longer);
    if at: nat :| LinesComplete(w, lines, at) {
      assert longer[..at + 1] == lines[..at + 1];
      assert LinesComplete(w, longer, at);
    }
  }
}
