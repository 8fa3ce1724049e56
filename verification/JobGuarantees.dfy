/** What the job channel guarantees in every run of the two programs together. */
module JobGuarantees {
  import opened Framing
  import opened Wrappers
  import opened HostJob
  import opened HostTranscript
  import opened GuestJob
  import opened JobChannel
  import opened JobScript
  import opened JobWire
  import opened JobInvariant
  import Base64

  // ----- Safety -----

  lemma ShortOfNewline(buffer: seq<Byte>, more: seq<Byte>, line: seq<Byte>, rest: seq<Byte>)
    requires LF !in buffer && buffer + more == line + [LF] + rest
    ensures |buffer| <= |line|
  {
    assert forall j :: 0 <= j < |buffer| ==> (buffer + more)[j] != LF;
    assert (line + [LF] + rest)[|line|] == LF;
  }

  /** While nothing raised, the buffer is the front of one line the guest sent whole. */
  lemma BufferIsOneLine(w: World, p: Plan, s: Sys)
    requires Faithful(w) && PlanOk(p) && Inv(w, p, s) && !s.host.job.raised
    ensures |s.host.buffer| + 1 < FRAME_LIMIT
  {
    var hist, n, buffer := History(s.guest), Seen(s), s.host.buffer;
    HistoryShape(w, p, s.guest);
    HostFollows(w, s);
    if buffer != [] {
      var lines := Texts(w, hist[n..]);
      ShortOfNewline(buffer, s.up + s.guest.outgoing, lines[0], Join(lines[1..]));
      assert lines[0] == w.text(hist[n]) && Fits(w, hist[n]);
    }
  }

  /** The frame bound is sufficient: against this guest, no read ever reaches the coordinator's limit. */
  lemma FrameBoundNeverFires(w: World, p: Plan, steps: seq<Step>, n: nat)
    requires Faithful(w) && PlanOk(p) && Enabled(Exec(w, p, steps), HostRecv(n))
    ensures var s := Exec(w, p, steps); |s.host.buffer + s.up[..n]| < 524288
  {
    InvAlways(w, p, steps);
    BufferIsOneLine(w, p, Exec(w, p, steps));
  }

  /** Admission precedes dispatch: a guest past its first read was admitted by exactly one admission message, on its
      own observation. */
  lemma AdmittedOnce(w: World, p: Plan, steps: seq<Step>)
    requires Faithful(w) && PlanOk(p)
    ensures var s := Exec(w, p, steps);
      s.guest.mainDone > |p.setup| + 1 ==>
        && s.host.job.report.guestReady == Some(p.observation) && Admissible(w.binding, p.observation)
        && multiset(s.host.job.sent)[Admit] == 1 && s.host.job.sent[0] == Admit
  {
    var s := Exec(w, p, steps);
    InvAlways(w, p, steps);
    RepliesSoFar(w, p, s);
    if s.guest.mainDone > |p.setup| + 1 {
      var main := MainScript(w, p);
      MainShape(w, p);
      ReadsFront(main, |p.setup| + 2, s.guest.mainDone);
      assert s.host.job.sent[0] == Admit;
      assert Admit in s.host.job.sent;
    }
  }

  /** And that observation is what the coordinator is bound to, field by field: no workflow starts on anything else. */
  lemma AdmissionPrecedesDispatch(w: World, p: Plan, steps: seq<Step>)
    requires Faithful(w) && PlanOk(p)
    ensures var s, o := Exec(w, p, steps), p.observation;
      s.guest.mainDone > |p.setup| + 1 ==>
        && s.host.job.report.guestReady == Some(o)
        && multiset(s.host.job.sent)[Admit] == 1 && s.host.job.sent[0] == Admit
        && o.platform == "linux" && o.networkInterfaces == ["lo"]
        && o.nodeVersion == "v24.18.0" && o.pnpmVersion == "11.15.1" && o.dockerServerVersion == "29.1.3"
        && o.imageIds == [w.binding.imageDigest]
        && o.source.commit == w.binding.sourceCommit && o.source.tree == w.binding.sourceTree
        && o.source.status == "" && o.source.privateRefs == ""
        && o.forbiddenPathPresent == [false, false, false, false, false]
        && "cpu" in o.cgroupControllers && "memory" in o.cgroupControllers && "pids" in o.cgroupControllers
  {
    AdmittedOnce(w, p, steps);
    if Exec(w, p, steps).guest.mainDone > |p.setup| + 1 {
      NonePresent(p.observation.forbiddenPathPresent);
    }
  }

  lemma NonePresent(present: seq<bool>)
    requires |present| == 5 && true !in present
    ensures present == [false, false, false, false, false]
  {
    forall i | 0 <= i < |present|
      ensures !present[i]
    {
      assert present[i] in present;
    }
  }

  lemma ReadsFront(script: seq<Instr>, k: nat, m: nat)
    requires k <= m <= |script|
    ensures ReadsOf(script[..k]) <= ReadsOf(script[..m])
  {
    assert script[..m] == script[..k] + script[k..m];
    BodiesAppend(script[..k], script[k..m]);
  }

  /** All bytes delivered and nothing raised: the coordinator has seen the whole history. */
  lemma AllDelivered(w: World, p: Plan, s: Sys)
    requires Faithful(w) && PlanOk(p) && Inv(w, p, s)
    requires s.up == [] && s.guest.outgoing == [] && !s.host.job.raised
    ensures s.host.buffer == [] && s.host.job == AfterBodies(w, History(s.guest))
  {
    var hist, n := History(s.guest), Seen(s);
    HistoryShape(w, p, s.guest);
    HostFollows(w, s);
    var lines := Texts(w, hist[n..]);
    assert s.host.buffer + ([] + []) == s.host.buffer;
    if lines != [] {
      JoinHasNewline(lines);
      assert false;
    }
    assert hist[..n] == hist;
  }

  lemma QuietFront(w: World, p: Plan, n: nat)
    requires PlanOk(p) && n < |MainBodies(w, p)|
    ensures Quiet(MainBodies(w, p)[..n])
  {
    var bodies := MainBodies(w, p);
    MainBodiesShape(w, p);
    forall b | b in bodies[..n]
      ensures !b.Bad?() && !b.Complete?
    {
      var i :| 0 <= i < n && bodies[i] == b;
    }
  }

  lemma MainReadies(w: World, p: Plan, n: nat)
    requires PlanOk(p) && n <= |MainBodies(w, p)|
    ensures Readies(MainBodies(w, p)[..n]) == if n > |p.setup| then 1 else 0
  {
    MainBodiesShape(w, p);
    ReadiesAt(MainBodies(w, p)[..n], |p.setup|);
    assert MainBodies(w, p)[|p.setup|] == HostReady(p.observation);
  }

  /** A coordinator that took in all the main messages without an exception has sent both replies. */
  lemma CompletedMain(w: World, p: Plan)
    requires PlanOk(p) && !AfterBodies(w, MainBodies(w, p)).raised
    ensures var j := AfterBodies(w, MainBodies(w, p)); |j.sent| == 2 && j.complete && j.report.status == Observed
  {
    var bodies := MainBodies(w, p);
    var last := |bodies| - 1;
    QuietFront(w, p, last);
    QuietTranscript(w, bodies[..last]);
    MainReadies(w, p, last);
    MainLast(w, p);
    ClaimHandled(w, AfterBodies(w, bodies[..last]));
  }

  lemma MainLast(w: World, p: Plan)
    ensures var bodies := MainBodies(w, p);
      |bodies| >= |p.setup| + 2 && bodies[|bodies| - 1] == Complete
      && AfterBodies(w, bodies) == Handle(w, AfterBodies(w, bodies[..|bodies| - 1]), Complete)
  {}

  /** A waiting main script has sent the main messages up to its observation, or all of them. */
  lemma WaitingHistory(w: World, p: Plan, g: Guest)
    requires PlanOk(p) && ScriptKept(w, p, g)
    requires g.mode.Main? && g.Idle() && g.script[g.pc].Receive?
    ensures var bodies := MainBodies(w, p);
      |p.setup| + 1 <= |bodies| && History(g) == if g.taken == 0 then bodies[..|p.setup| + 1] else bodies
  {
    WaitingPoint(w, p, g);
    assert MainBodies(w, p)[..|p.setup| + 1] == p.setup + [HostReady(p.observation)];
  }

  lemma SeenAllWhenStopped(w: World, p: Plan, s: Sys)
    requires Faithful(w) && PlanOk(p) && Inv(w, p, s)
    requires s.guest.mode.Main? && s.guest.Idle() && s.guest.script[s.guest.pc].Receive?
    requires !s.host.job.raised && s.host.Stopped()
    ensures s.host.job == AfterBodies(w, History(s.guest))
  {
    WaitingHistory(w, p, s.guest);
    HistoryShape(w, p, s.guest);
    HostFollows(w, s);
    CompleteMeansAll(w, p, History(s.guest), Seen(s));
  }

  lemma CompleteMeansAll(w: World, p: Plan, hist: seq<Body>, n: nat)
    requires PlanOk(p) && n <= |hist| && hist <= MainBodies(w, p)
    requires !AfterBodies(w, hist[..n]).raised && AfterBodies(w, hist[..n]).complete
    ensures hist[..n] == hist
  {
    assert hist[..n] == MainBodies(w, p)[..n];
    if n < |MainBodies(w, p)| {
      QuietFront(w, p, n);
      QuietTranscript(w, hist[..n]);
    }
  }

  /** The replies sent once the coordinator has seen all a waiting main script has sent. */
  lemma RepliesWhenSeen(w: World, p: Plan, g: Guest)
    requires PlanOk(p) && ScriptKept(w, p, g)
    requires g.mode.Main? && g.Idle() && g.script[g.pc].Receive?
    requires !AfterBodies(w, History(g)).raised
    ensures |AfterBodies(w, History(g)).sent| == g.taken + 1
  {
    WaitingPoint(w, p, g);
    WaitingHistory(w, p, g);
    var n := |p.setup| + 1;
    if g.taken == 0 {
      assert MainBodies(w, p)[n - 1] == HostReady(p.observation);
      QuietFront(w, p, n);
      QuietTranscript(w, MainBodies(w, p)[..n]);
      MainReadies(w, p, n);
    } else {
      CompletedMain(w, p);
    }
  }

  lemma WaitingIsAnswered(w: World, p: Plan, s: Sys)
    requires Faithful(w) && PlanOk(p) && Inv(w, p, s)
    requires s.guest.mode.Main? && s.guest.Idle() && s.guest.script[s.guest.pc].Receive?
    requires !s.host.job.raised && (s.host.Stopped() || s.up == [])
    ensures s.down == Line(w.reply(s.guest.script[s.guest.pc].reply))
  {
    if s.up == [] {
      AllDelivered(w, p, s);
    } else {
      SeenAllWhenStopped(w, p, s);
    }
    RepliesWhenSeen(w, p, s.guest);
    ReadFindsItsReply(w, p, s);
    OneReplyLeft(w, s);
  }

  lemma OneReplyLeft(w: World, s: Sys)
    requires RepliesKept(w, s) && |s.host.job.sent| == s.guest.taken + 1
    ensures s.down == Line(w.reply(s.host.job.sent[s.guest.taken]))
  {
    var rest := s.host.job.sent[s.guest.taken..];
    assert rest == [s.host.job.sent[s.guest.taken]];
    assert Replies(w, rest) == [w.reply(rest[0])];
    JoinOne(w.reply(rest[0]));
  }

  /** No stuck or mistyped receive: a main script waiting for a reply faces a coordinator that raised, or has
      bytes on their way to a coordinator still reading, or has exactly that reply on its way. */
  lemma NoStuckReceive(w: World, p: Plan, steps: seq<Step>)
    requires Faithful(w) && PlanOk(p)
    ensures var s := Exec(w, p, steps);
      s.guest.mode.Main? && s.guest.Idle() && s.guest.script[s.guest.pc].Receive? ==>
        || s.host.job.raised
        || (!s.host.Stopped() && s.up != [])
        || s.down == Line(w.reply(s.guest.script[s.guest.pc].reply))
  {
    var s := Exec(w, p, steps);
    InvAlways(w, p, steps);
    if s.guest.mode.Main? && s.guest.Idle() && s.guest.script[s.guest.pc].Receive? {
      if !s.host.job.raised && (s.host.Stopped() || s.up == []) {
        WaitingIsAnswered(w, p, s);
      }
    }
  }

  // ----- The archive arrives -----

  /** The chunk messages carry the archive from front to back. */
  lemma {:induction false} PayloadOfChunks(archive: seq<Byte>, n: nat)
    ensures Payload(ChunkBodies(archive, n)) == archive[..Position(archive, n)]
    ensures forall i :: 0 <= i < n ==> IsChunk(ChunkBodies(archive, n)[i], i)
    decreases n
  {
    if n > 0 {
      PayloadOfChunks(archive, n - 1);
      ChunksNext(archive, n - 1);
      Base64.RoundTrip(Slice(archive, n - 1));
      PayloadNext(ChunkBodies(archive, n - 1), ChunkBody(archive, n - 1), Slice(archive, n - 1));
      NextSlice(archive, n - 1);
    }
  }

  lemma ChunksNext(archive: seq<Byte>, n: nat)
    ensures ChunkBodies(archive, n + 1) == ChunkBodies(archive, n) + [ChunkBody(archive, n)]
  {}

  lemma PayloadNext(chunks: seq<Body>, b: Body, bytes: seq<Byte>)
    requires b.ArchiveChunk? && Base64.Decode(b.data) == Some(bytes)
    ensures Payload(chunks + [b]) == Payload(chunks) + bytes
  {
    assert (chunks + [b])[..|chunks|] == chunks;
  }

  lemma NextSlice(archive: seq<Byte>, i: nat)
    ensures archive[..Position(archive, i)] + Slice(archive, i) == archive[..Position(archive, i + 1)]
    ensures |Slice(archive, i)| <= CHUNK_LIMIT
  {}

  /** The ceiling division makes the last chunk end where the archive does. */
  lemma LastPosition(archive: seq<Byte>)
    ensures Position(archive, ChunkCount(|archive|)) == |archive|
  {
    assert ChunkCount(|archive|) * CHUNK_LIMIT >= |archive|;
  }

  lemma WholePayload(archive: seq<Byte>)
    ensures Payload(ChunkBodies(archive, ChunkCount(|archive|))) == archive
  {
    PayloadOfChunks(archive, ChunkCount(|archive|));
    LastPosition(archive);
  }

  lemma {:induction false} ArchivePartAppend(a: seq<Body>, b: seq<Body>)
    ensures ArchivePart(a + b) == ArchivePart(a) + ArchivePart(b)
    decreases |b|
  {
    if b == [] {
      assert a + b == a;
    } else {
      assert (a + b)[..|a + b| - 1] == a + b[..|b| - 1];
      ArchivePartAppend(a, b[..|b| - 1]);
    }
  }

  lemma {:induction false} ArchivePartOf(bodies: seq<Body>, keep: bool)
    requires forall i :: 0 <= i < |bodies| ==> (bodies[i].Archive?() <==> keep)
    ensures ArchivePart(bodies) == if keep then bodies else []
    decreases |bodies|
  {
    if bodies != [] {
      ArchivePartOf(bodies[..|bodies| - 1], keep);
    }
  }

  /** The archive messages of a whole main script are its export. */
  lemma MainArchivePart(w: World, p: Plan)
    requires PlanOk(p)
    ensures var bodies := MainBodies(w, p);
      ArchivePart(bodies[..|bodies| - 1]) == ExportBodies(w, p.archive)
  {
    var bodies, exported := MainBodies(w, p), ExportBodies(w, p.archive);
    var front := p.setup + [HostReady(p.observation)] + p.matrix;
    assert bodies[..|bodies| - 1] == front + exported;
    forall i | 0 <= i < |front|
      ensures !front[i].Archive?()
    {
      if i < |p.setup| {
        assert front[i] == p.setup[i] && p.setup[i] in p.setup;
      } else if i > |p.setup| {
        assert front[i] == p.matrix[i - |p.setup| - 1] && front[i] in p.matrix;
      }
    }
    ExportIsArchive(w, p.archive);
    ArchivePartOf(front, false);
    ArchivePartOf(exported, true);
    ArchivePartAppend(front, exported);
  }

  /** What an accepted whole transcript leaves behind. */
  lemma AcceptedMain(w: World, p: Plan)
    requires PlanOk(p) && Completes(w, MainBodies(w, p), |MainBodies(w, p)| - 1)
    ensures var j := AfterBodies(w, MainBodies(w, p));
      && !j.raised && !j.failed && !j.open && j.file == Some(p.archive)
      && j.report.archive == Some(Announced(|p.archive|, w.digest(p.archive)))
  {
    var bodies := MainBodies(w, p);
    var front := bodies[..|bodies| - 1];
    MainLast(w, p);
    MainArchivePart(w, p);
    QuietTranscript(w, front);
    SealedIsNotStreaming(w, ArchivePart(front));
    WholePayload(p.archive);
    var exported := ExportBodies(w, p.archive);
    assert exported[1..|exported| - 1] == ChunkBodies(p.archive, ChunkCount(|p.archive|));
    ClaimHandled(w, AfterBodies(w, front));
  }
}
