/** What the coordinator's read loop means, for any guest: its framing, and the transcripts it reports as
    observed. */
module HostTranscript {
  import opened Framing
  import opened Wrappers
  import opened HostJob
  import Base64

  /** The state is the one reached by the lines handled; a read over the bound only adds the exception. */
  ghost predicate Synced(w: World, e: Endpoint) {
    e.job == After(w, e.lines) || e.job == Raise(After(w, e.lines))
  }

  // ----- Framing -----

  /** What holds of the receiving end once it has taken in exactly `stream`. */
  ghost predicate Received(w: World, e: Endpoint, stream: seq<Byte>) {
    && Synced(w, e)
    && NewlineFree(e.lines)
    && Join(e.lines) + e.buffer == stream
    && (!e.job.raised ==> LF !in e.buffer && e.job == After(w, e.lines))
  }

  /** Moving the first line out of the buffer changes nothing in the stream they spell. */
  lemma CutLine(lines: seq<seq<Byte>>, buffer: seq<Byte>)
    requires LF in buffer
    ensures var i := IndexOf(buffer, LF);
      Join(lines + [buffer[..i]]) + buffer[i + 1..] == Join(lines) + buffer
  {
    var i := IndexOf(buffer, LF);
    JoinAppend(lines, [buffer[..i]]);
    assert Join([buffer[..i]]) == buffer[..i] + [LF];
    AppendAssociative(Join(lines), buffer[..i] + [LF], buffer[i + 1..]);
    SplitAt(buffer, i);
  }

  /** One turn of the inner loop. */
  lemma CutReceives(w: World, e: Endpoint)
    requires LF in e.buffer && e.job == After(w, e.lines) && NewlineFree(e.lines)
    ensures var i := IndexOf(e.buffer, LF);
      var next := Endpoint(e.buffer[i + 1..], Dispatch(w, e.job, e.buffer[..i]), e.lines + [e.buffer[..i]]);
      && next.job == After(w, next.lines) && NewlineFree(next.lines)
      && Join(next.lines) + next.buffer == Join(e.lines) + e.buffer
  {
    CutLine(e.lines, e.buffer);
    var lines := e.lines + [e.buffer[..IndexOf(e.buffer, LF)]];
    assert lines[..|lines| - 1] == e.lines;
  }

  lemma {:induction false} DrainReceives(w: World, e: Endpoint)
    requires e.job == After(w, e.lines) && NewlineFree(e.lines)
    ensures Received(w, Drain(w, e), Join(e.lines) + e.buffer)
    ensures e.lines <= Drain(w, e).lines && Drain(w, e).job == After(w, Drain(w, e).lines)
    decreases |e.buffer|
  {
    if LF in e.buffer && !e.job.raised {
      var i := IndexOf(e.buffer, LF);
      CutReceives(w, e);
      DrainReceives(w, Endpoint(e.buffer[i + 1..], Dispatch(w, e.job, e.buffer[..i]), e.lines + [e.buffer[..i]]));
    }
  }

  lemma PumpReceives(w: World, e: Endpoint, stream: seq<Byte>, chunk: seq<Byte>)
    requires Received(w, e, stream) && !e.job.raised
    ensures Received(w, Pump(w, e, chunk), stream + chunk)
    ensures e.lines <= Pump(w, e, chunk).lines
  {
    var next := e.(buffer := e.buffer + chunk);
    AppendAssociative(Join(e.lines), e.buffer, chunk);
    if |next.buffer| < BUFFER_LIMIT {
      DrainReceives(w, next);
    }
  }

  /** Framing refinement. However the stream is cut into reads, the lines handled are its complete lines in
      order and the buffer is its unterminated tail, for as long as nothing raises; after an exception they
      are a prefix of those lines, and no byte is lost. `used` is how many reads were made. */
  lemma {:induction false} RunIsFraming(w: World, e: Endpoint, stream: seq<Byte>, chunks: seq<seq<Byte>>)
      returns (used: nat)
    requires Received(w, e, stream)
    ensures used <= |chunks| && (used < |chunks| ==> Run(w, e, chunks).Stopped())
    ensures Received(w, Run(w, e, chunks), stream + Concat(chunks[..used]))
    ensures e.lines <= Run(w, e, chunks).lines <= Lines(stream + Concat(chunks[..used]))
    ensures !Run(w, e, chunks).job.raised ==>
      && Run(w, e, chunks).lines == Lines(stream + Concat(chunks[..used]))
      && Run(w, e, chunks).buffer == Tail(stream + Concat(chunks[..used]))
    decreases |chunks|
  {
    if chunks == [] || e.Stopped() {
      used := 0;
      assert stream + Concat(chunks[..0]) == stream;
    } else {
      PumpReceives(w, e, stream, chunks[0]);
      var rest := RunIsFraming(w, Pump(w, e, chunks[0]), stream + chunks[0], chunks[1..]);
      used := rest + 1;
      OneReadMore(stream, chunks, rest);
    }
    ReceivedLines(w, Run(w, e, chunks), stream + Concat(chunks[..used]));
  }

  lemma OneReadMore(stream: seq<Byte>, chunks: seq<seq<Byte>>, rest: nat)
    requires chunks != [] && rest <= |chunks[1..]|
    ensures stream + chunks[0] + Concat(chunks[1..][..rest]) == stream + Concat(chunks[..rest + 1])
  {
    assert chunks[..rest + 1][1..] == chunks[1..][..rest];
    AppendAssociative(stream, chunks[0], Concat(chunks[1..][..rest]));
  }

  lemma ReceivedLines(w: World, e: Endpoint, stream: seq<Byte>)
    requires Received(w, e, stream)
    ensures e.lines <= Lines(stream)
    ensures !e.job.raised ==> e.lines == Lines(stream) && e.buffer == Tail(stream)
  {
    LinesThenRest(e.lines, e.buffer);
  }

  /** Two ways of cutting one stream handle the same lines, except that one may stop earlier; if neither
      stops, they end in the same state. */
  lemma SlicingIsIrrelevant(w: World, one: seq<seq<Byte>>, two: seq<seq<Byte>>)
    requires Concat(one) == Concat(two)
    ensures var a, b := Run(w, IDLE, one), Run(w, IDLE, two);
      && (a.lines <= b.lines || b.lines <= a.lines)
      && (!a.Stopped() && !b.Stopped() ==> a == b)
  {
    var a, b := Run(w, IDLE, one), Run(w, IDLE, two);
    var usedOne := RunIsFraming(w, IDLE, [], one);
    var usedTwo := RunIsFraming(w, IDLE, [], two);
    var stream := Concat(one);
    PrefixOfStream(one, usedOne, a.lines);
    PrefixOfStream(two, usedTwo, b.lines);
    assert a.lines <= Lines(stream) && b.lines <= Lines(stream);
    if !a.Stopped() && !b.Stopped() {
      assert one[..usedOne] == one && two[..usedTwo] == two;
    }
  }

  lemma PrefixOfStream(chunks: seq<seq<Byte>>, used: nat, lines: seq<seq<Byte>>)
    requires used <= |chunks| && lines <= Lines([] + Concat(chunks[..used]))
    ensures lines <= Lines(Concat(chunks))
  {
    var front, back := Concat(chunks[..used]), Concat(chunks[used..]);
    EmptyFront(front);
    ConcatSplit(chunks, used);
    MoreLines(front, back);
  }

  lemma EmptyFront(s: seq<Byte>)
    ensures [] + s == s
  {}

  lemma ConcatSplit(chunks: seq<seq<Byte>>, used: nat)
    requires used <= |chunks|
    ensures Concat(chunks) == Concat(chunks[..used]) + Concat(chunks[used..])
  {
    assert chunks[..used] + chunks[used..] == chunks;
    ConcatAppend(chunks[..used], chunks[used..]);
  }

  lemma MoreLines(front: seq<Byte>, back: seq<Byte>)
    ensures Lines(front) <= Lines(front + back)
  {
    LinesAppend(front, back);
  }

  // ----- Which transcripts are accepted -----

  /** The archive messages among `bodies`, in order. */
  function ArchivePart(bodies: seq<Body>): seq<Body> {
    if bodies == [] then []
    else
      var last := bodies[|bodies| - 1];
      ArchivePart(bodies[..|bodies| - 1]) + if last.Archive?() then [last] else []
  }

  /** The bytes a run of chunks carries. */
  function Payload(chunks: seq<Body>): seq<Byte> {
    if chunks == [] then []
    else
      var last := chunks[|chunks| - 1];
      Payload(chunks[..|chunks| - 1])
      + if last.ArchiveChunk? && Base64.Decode(last.data).Some? then Base64.Decode(last.data).value else []
  }

  function Readies(bodies: seq<Body>): nat {
    if bodies == [] then 0
    else Readies(bodies[..|bodies| - 1]) + if bodies[|bodies| - 1].HostReady? then 1 else 0
  }

  predicate IsChunk(b: Body, sequence: nat) {
    && b.ArchiveChunk? && b.sequence == sequence
    && Base64.Decode(b.data).Some? && |Base64.Decode(b.data).value| <= CHUNK_LIMIT
  }

  /** An announcement followed by chunks numbered from zero that do not exceed it. */
  ghost predicate Streaming(part: seq<Body>) {
    && part != [] && part[0].ArchiveStart? && 0 < part[0].bytes < ARCHIVE_LIMIT
    && (forall i :: 1 <= i < |part| ==> IsChunk(part[i], i - 1))
    && |Payload(part[1..])| <= part[0].bytes
  }

  /** A stream closed with the announced size and digest. */
  ghost predicate Sealed(w: World, part: seq<Body>) {
    && |part| >= 2 && Streaming(part[..|part| - 1])
    && part[|part| - 1] == ArchiveEnd(part[0].sha256)
    && |Payload(part[1..|part| - 1])| == part[0].bytes
    && w.digest(Payload(part[1..|part| - 1])) == part[0].sha256
  }

  /** Every observation passes admission and every admission can be sent. */
  ghost predicate Admitted(w: World, bodies: seq<Body>) {
    forall i :: 0 <= i < |bodies| && bodies[i].HostReady? ==>
      Admissible(w.binding, bodies[i].observation) && w.sendOk(Readies(bodies[..i]))
  }

  /** No failure is reported and completion is not claimed. */
  ghost predicate Quiet(bodies: seq<Body>) {
    forall b :: b in bodies ==> !b.Bad?() && !b.Complete?
  }

  /** How the archive messages so far show in the coordinator's fields. */
  ghost predicate Shows(w: World, part: seq<Body>, j: Job) {
    && (part == [] ==> !j.open && j.file.None? && j.report.archive.None? && j.sequence == 0)
    && (Streaming(part) ==>
        && j.open && j.file == Some(Payload(part[1..])) && j.sequence == |part| - 1
        && j.expected == Some(Announced(part[0].bytes, part[0].sha256)) && j.report.archive.None?)
    && (Sealed(w, part) ==>
        && !j.open && j.file == Some(Payload(part[1..|part| - 1]))
        && j.report.archive == Some(Announced(part[0].bytes, part[0].sha256)))
  }

  /** The state the coordinator is in after a quiet transcript that did not raise. */
  ghost predicate Tracks(w: World, bodies: seq<Body>, j: Job) {
    && !j.raised && !j.failed && !j.complete && j.report.status == Error
    && |j.sent| == Readies(bodies)
    && Shows(w, ArchivePart(bodies), j)
  }

  ghost predicate WellFormed(w: World, part: seq<Body>) {
    part == [] || Streaming(part) || Sealed(w, part)
  }

  /** Streams and sealed archives are told apart by their last message. */
  lemma SealedIsNotStreaming(w: World, part: seq<Body>)
    ensures !(Sealed(w, part) && Streaming(part))
  {
    if Sealed(w, part) {
      assert !IsChunk(part[|part| - 1], |part| - 2);
    }
  }

  lemma StartAlone(w: World, b: Body)
    requires b.ArchiveStart?
    ensures Streaming([b]) <==> 0 < b.bytes < ARCHIVE_LIMIT
    ensures !Sealed(w, [b]) && Payload([b][1..]) == []
  {
    assert [b][1..] == [];
  }

  lemma StartIsNeverLast(w: World, part: seq<Body>, b: Body)
    requires b.ArchiveStart? && part != []
    ensures !WellFormed(w, part + [b])
  {
    var next := part + [b];
    assert next[|next| - 1] == b && !IsChunk(next[|next| - 1], |next| - 2);
  }

  lemma ExtendStart(w: World, part: seq<Body>, j: Job, b: Body)
    requires b.ArchiveStart? && WellFormed(w, part) && Shows(w, part, j) && !j.raised
    ensures !Handle(w, j, b).raised <==> WellFormed(w, part + [b])
    ensures !Handle(w, j, b).raised ==> Shows(w, part + [b], Handle(w, j, b))
  {
    if part == [] {
      StartAlone(w, b);
      assert part + [b] == [b];
    } else {
      StartIsNeverLast(w, part, b);
    }
  }

  lemma ExtendChunk(w: World, part: seq<Body>, j: Job, b: Body)
    requires b.ArchiveChunk? && WellFormed(w, part) && Shows(w, part, j) && !j.raised
    ensures !Handle(w, j, b).raised <==> WellFormed(w, part + [b])
    ensures !Handle(w, j, b).raised ==> Shows(w, part + [b], Handle(w, j, b))
  {
    var next := part + [b];
    SealedIsNotStreaming(w, part);
    if Streaming(part) {
      PayloadOfChunk(part, b);
      assert next[|part|] == b;
    } else if Sealed(w, part) {
      assert !IsChunk(next[|part| - 1], |part| - 2);
      assert !Streaming(next);
    } else {
      assert !Streaming(next);
    }
  }

  lemma PayloadOfChunk(part: seq<Body>, b: Body)
    requires part != []
    ensures Payload((part + [b])[1..])
         == Payload(part[1..])
            + if b.ArchiveChunk? && Base64.Decode(b.data).Some? then Base64.Decode(b.data).value else []
  {
    var tail := (part + [b])[1..];
    assert tail[..|tail| - 1] == part[1..];
  }

  lemma ExtendEnd(w: World, part: seq<Body>, j: Job, b: Body)
    requires b.ArchiveEnd? && WellFormed(w, part) && Shows(w, part, j) && !j.raised
    ensures !Handle(w, j, b).raised <==> WellFormed(w, part + [b])
    ensures !Handle(w, j, b).raised ==> Shows(w, part + [b], Handle(w, j, b))
  {
    var next := part + [b];
    assert next[..|next| - 1] == part;
    SealedIsNotStreaming(w, part);
    if part != [] {
      assert !IsChunk(next[|next| - 1], |next| - 2);
      assert !Streaming(next);
      assert next[1..|next| - 1] == part[1..];
    }
  }

  lemma QuietArchiveStep(w: World, part: seq<Body>, j: Job, b: Body)
    requires b.Archive?() && !j.raised && WellFormed(w, part) && Shows(w, part, j)
    ensures !Handle(w, j, b).raised <==> WellFormed(w, part + [b])
    ensures !Handle(w, j, b).raised ==> Shows(w, part + [b], Handle(w, j, b))
  {
    if b.ArchiveStart? {
      ExtendStart(w, part, j, b);
    } else if b.ArchiveChunk? {
      ExtendChunk(w, part, j, b);
    } else {
      ExtendEnd(w, part, j, b);
    }
  }

  lemma ArchiveStepFlags(w: World, j: Job, b: Body)
    requires b.Archive?() && !j.failed && !j.complete
    ensures var h := Handle(w, j, b);
      !h.failed && !h.complete && h.report.status == j.report.status && h.sent == j.sent
  {}

  lemma QuietOtherStep(w: World, part: seq<Body>, j: Job, b: Body)
    requires b.HostReady? || b.Note?
    requires !j.failed && !j.complete && !j.raised && j.report.status == Error && Shows(w, part, j)
    ensures var h := Handle(w, j, b);
      && (!h.raised <==> (b.HostReady? ==> Admissible(w.binding, b.observation) && w.sendOk(|j.sent|)))
      && (!h.raised ==> Shows(w, part, h))
      && !h.failed && !h.complete && h.report.status == Error
      && (!h.raised ==> |h.sent| == |j.sent| + if b.HostReady? then 1 else 0)
  {}

  /** A quiet transcript raises nothing exactly when it is admitted and its archive messages are a
      well-formed stream, and then the coordinator's fields spell that stream out. */
  lemma {:induction false} QuietTranscript(w: World, bodies: seq<Body>)
    requires Quiet(bodies)
    ensures !AfterBodies(w, bodies).raised <==> Admitted(w, bodies) && WellFormed(w, ArchivePart(bodies))
    ensures !AfterBodies(w, bodies).raised ==> Tracks(w, bodies, AfterBodies(w, bodies))
    decreases |bodies|
  {
    if bodies != [] {
      var front, b := bodies[..|bodies| - 1], bodies[|bodies| - 1];
      assert b in bodies;
      QuietTranscript(w, front);
      QuietStep(w, front, b, AfterBodies(w, front), AfterBodies(w, bodies));
      assert bodies == front + [b];
    }
  }

  lemma PartStep(front: seq<Body>, b: Body)
    ensures ArchivePart(front + [b]) == if b.Archive?() then ArchivePart(front) + [b] else ArchivePart(front)
  {
    assert (front + [b])[..|front|] == front;
    assert ArchivePart(front) + [] == ArchivePart(front);
  }

  lemma QuietStep(w: World, front: seq<Body>, b: Body, j: Job, h: Job)
    requires !b.Bad?() && !b.Complete? && h == Handle(w, j, b)
    requires !j.raised <==> Admitted(w, front) && WellFormed(w, ArchivePart(front))
    requires !j.raised ==> Tracks(w, front, j)
    ensures !h.raised <==> Admitted(w, front + [b]) && WellFormed(w, ArchivePart(front + [b]))
    ensures !h.raised ==> Shows(w, ArchivePart(front + [b]), h) && !h.failed && !h.complete
    ensures !h.raised ==> h.report.status == Error && |h.sent| == |j.sent| + if b.HostReady? then 1 else 0
  {
    AdmittedStep(w, front, b);
    PartStep(front, b);
    var part := ArchivePart(front);
    if b.Archive?() && WellFormed(w, part + [b]) {
      WellFormedFront(w, part, b);
    }
    if !j.raised {
      if b.Archive?() {
        QuietArchiveStep(w, part, j, b);
        ArchiveStepFlags(w, j, b);
      } else {
        QuietOtherStep(w, part, j, b);
      }
    }
  }

  lemma AdmittedStep(w: World, front: seq<Body>, b: Body)
    ensures Admitted(w, front + [b]) <==>
      Admitted(w, front) && (b.HostReady? ==> Admissible(w.binding, b.observation) && w.sendOk(Readies(front)))
  {
    var bodies := front + [b];
    assert bodies[..|front|] == front && bodies[|front|] == b;
    forall i | 0 <= i < |front|
      ensures front[..i] == bodies[..i] && front[i] == bodies[i]
    {}
  }

  lemma WellFormedFront(w: World, part: seq<Body>, b: Body)
    requires WellFormed(w, part + [b])
    ensures WellFormed(w, part)
  {
    var next := part + [b];
    assert next[..|part|] == part;
    if Streaming(next) && part != [] {
      PayloadOfChunk(part, b);
      assert forall i :: 1 <= i < |part| ==> next[i] == part[i];
    }
  }

  /** The transcripts after which the coordinator reports success: some message claims completion, and before
      the first such message nothing failed, every observation was admitted and one archive was sealed. */
  ghost predicate Completes(w: World, bodies: seq<Body>, at: nat) {
    && at < |bodies| && bodies[at].Complete?
    && Quiet(bodies[..at]) && Admitted(w, bodies[..at]) && Sealed(w, ArchivePart(bodies[..at]))
    && w.sendOk(Readies(bodies[..at]))
  }

  lemma HandleSettles(w: World, j: Job, b: Body)
    requires !j.raised
    ensures var h := Handle(w, j, b);
      && (!h.raised ==> (h.failed <==> j.failed || b.Bad?()))
      && (h.report.status == Observed <==>
            j.report.status == Observed
            || (b.Complete? && !j.failed && j.report.archive.Some? && w.sendOk(|j.sent|)))
      && (b.Complete? && !h.raised ==> h.report.status == Observed)
  {}

  /** Without an exception, the failure flag and an unsettled status mean what they say of the transcript. */
  lemma {:induction false} FlagsMeanReported(w: World, bodies: seq<Body>)
    requires !AfterBodies(w, bodies).raised
    ensures AfterBodies(w, bodies).failed <==> exists b :: b in bodies && b.Bad?()
    ensures AfterBodies(w, bodies).report.status == Error ==> forall b :: b in bodies ==> !b.Complete?
    decreases |bodies|
  {
    if bodies != [] {
      var front, b := bodies[..|bodies| - 1], bodies[|bodies| - 1];
      assert !AfterBodies(w, front).raised;
      HandleSettles(w, AfterBodies(w, front), b);
      FlagsMeanReported(w, front);
      assert bodies == front + [b];
      assert forall x :: x in bodies <==> x in front || x == b;
    }
  }

  /** The step on which the status is settled. */
  lemma SettlingStep(w: World, front: seq<Body>, b: Body)
    requires !AfterBodies(w, front).raised && AfterBodies(w, front).report.status == Error
    ensures Handle(w, AfterBodies(w, front), b).report.status == Observed <==> Completes(w, front + [b], |front|)
  {
    var j := AfterBodies(w, front);
    assert (front + [b])[..|front|] == front;
    HandleSettles(w, j, b);
    FlagsMeanReported(w, front);
    if Quiet(front) {
      QuietTranscript(w, front);
      SealedIsNotStreaming(w, ArchivePart(front));
    }
  }

  lemma CompletesNotRaised(w: World, front: seq<Body>, b: Body)
    requires Completes(w, front + [b], |front|)
    ensures !AfterBodies(w, front).raised
  {
    assert (front + [b])[..|front|] == front;
    QuietTranscript(w, front);
  }

  /** What a completion claim does to a coordinator that has not raised. */
  lemma ClaimHandled(w: World, j: Job)
    requires !j.raised
    ensures var h := Handle(w, j, Complete);
      && (!h.raised <==> !j.failed && j.report.archive.Some? && w.sendOk(|j.sent|))
      && (!h.raised ==>
            h.complete && h.sent == j.sent + [Shutdown] && h.failed == j.failed && h.file == j.file && h.open == j.open
            && h.report == j.report.(status := Observed))
  {}

  lemma CompletesInFront(w: World, bodies: seq<Body>, end: nat, at: nat)
    requires at < end <= |bodies|
    ensures Completes(w, bodies[..end], at) <==> Completes(w, bodies, at)
  {
    assert bodies[..end][..at] == bodies[..at];
  }

  /** The status is exact: it says observed if and only if the transcript completes at some point. What
      follows that point cannot take it back. */
  lemma {:induction false} ObservedIff(w: World, bodies: seq<Body>)
    ensures AfterBodies(w, bodies).report.status == Observed <==> exists at: nat :: Completes(w, bodies, at)
    decreases |bodies|
  {
    if bodies != [] {
      var last := |bodies| - 1;
      var front, b := bodies[..last], bodies[last];
      ObservedIff(w, front);
      forall at: nat | at < last
        ensures Completes(w, front, at) <==> Completes(w, bodies, at)
      {
        CompletesInFront(w, bodies, last, at);
      }
      assert bodies == front + [b];
      LastBody(w, front, b, AfterBodies(w, bodies));
    }
  }

  lemma LastBody(w: World, front: seq<Body>, b: Body, h: Job)
    requires h == Handle(w, AfterBodies(w, front), b)
    ensures h.report.status == Observed
       <==> AfterBodies(w, front).report.status == Observed || Completes(w, front + [b], |front|)
  {
    var j := AfterBodies(w, front);
    if j.raised {
      if Completes(w, front + [b], |front|) {
        CompletesNotRaised(w, front, b);
      }
    } else {
      HandleSettles(w, j, b);
      if j.report.status == Error {
        SettlingStep(w, front, b);
      }
    }
  }

  // ----- The same for lines -----

  ghost predicate AllAuthentic(w: World, lines: seq<seq<Byte>>) {
    forall line :: line in lines ==> Authentic(w, line)
  }

  function BodyOf(w: World, line: seq<Byte>): Body
    requires Authentic(w, line)
  {
    w.read(line).value.body
  }

  ghost function Bodies(w: World, lines: seq<seq<Byte>>): (bodies: seq<Body>)
    requires AllAuthentic(w, lines)
    ensures |bodies| == |lines|
    ensures forall i :: 0 <= i < |lines| ==> bodies[i] == BodyOf(w, lines[i])
  {
    if lines == [] then []
    else
      assert AllAuthentic(w, lines[..|lines| - 1]);
      Bodies(w, lines[..|lines| - 1]) + [BodyOf(w, lines[|lines| - 1])]
  }

  lemma {:induction false} AuthenticLines(w: World, lines: seq<seq<Byte>>)
    requires AllAuthentic(w, lines)
    ensures After(w, lines) == AfterBodies(w, Bodies(w, lines))
    decreases |lines|
  {
    if lines != [] {
      var front := lines[..|lines| - 1];
      AuthenticLines(w, front);
      assert Bodies(w, lines)[..|lines| - 1] == Bodies(w, front);
    }
  }

  /** How many lines are authentic before the first that is not. */
  ghost function AuthenticCount(w: World, lines: seq<seq<Byte>>): (n: nat)
    ensures n <= |lines| && AllAuthentic(w, lines[..n])
    ensures n < |lines| ==> !Authentic(w, lines[n])
  {
    if lines == [] || !Authentic(w, lines[0]) then 0
    else
      var n := 1 + AuthenticCount(w, lines[1..]);
      assert lines[..n] == [lines[0]] + lines[1..][..n - 1];
      n
  }

  lemma {:induction false} LateLines(w: World, lines: seq<seq<Byte>>, n: nat)
    requires n < |lines| && !Authentic(w, lines[n])
    ensures After(w, lines).report.status == After(w, lines[..n]).report.status && After(w, lines).raised
    decreases |lines|
  {
    var front := lines[..|lines| - 1];
    if n < |lines| - 1 {
      LateLines(w, front, n);
      assert front[..n] == lines[..n];
    }
  }

  /** Some line claims completion, and the lines up to it are authentic and complete. */
  ghost predicate LinesComplete(w: World, lines: seq<seq<Byte>>, at: nat) {
    && at < |lines| && AllAuthentic(w, lines[..at + 1]) && Completes(w, Bodies(w, lines[..at + 1]), at)
  }

  lemma LineCompletes(w: World, lines: seq<seq<Byte>>, n: nat, at: nat)
    requires n <= |lines| && AllAuthentic(w, lines[..n])
    requires n < |lines| ==> !Authentic(w, lines[n])
    ensures LinesComplete(w, lines, at) <==> Completes(w, Bodies(w, lines[..n]), at)
  {
    if at < n {
      BodiesOfFront(w, lines, n, at + 1);
      CompletesInFront(w, Bodies(w, lines[..n]), at + 1, at);
    } else if at < |lines| {
      assert lines[n] in lines[..at + 1];
    }
  }

  lemma BodiesOfFront(w: World, lines: seq<seq<Byte>>, n: nat, k: nat)
    requires k <= n <= |lines| && AllAuthentic(w, lines[..n])
    ensures AllAuthentic(w, lines[..k]) && Bodies(w, lines[..n])[..k] == Bodies(w, lines[..k])
  {
    assert lines[..n][..k] == lines[..k];
    assert AllAuthentic(w, lines[..k]);
  }

  /** Exit-code safety for an arbitrary guest, in both directions: whatever bytes arrive, the status is
      observed if and only if some handled line completes an authentic, admitted, failure-free transcript
      whose archive is sealed. */
  lemma StatusIff(w: World, lines: seq<seq<Byte>>)
    ensures After(w, lines).report.status == Observed <==> exists at: nat :: LinesComplete(w, lines, at)
  {
    var n := AuthenticCount(w, lines);
    AuthenticLines(w, lines[..n]);
    ObservedIff(w, Bodies(w, lines[..n]));
    if n < |lines| {
      LateLines(w, lines, n);
    } else {
      assert lines[..n] == lines;
    }
    forall at: nat
      ensures LinesComplete(w, lines, at) <==> Completes(w, Bodies(w, lines[..n]), at)
    {
      LineCompletes(w, lines, n, at);
    }
  }
}
