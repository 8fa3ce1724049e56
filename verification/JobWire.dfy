/** What each step keeps of the two byte queues, and what the coordinator has seen of the guest. */
module JobWire {
  import opened Framing
  import opened Wrappers
  import opened HostJob
  import opened HostTranscript
  import opened GuestJob
  import opened JobChannel
  import opened JobScript

  // ----- Each step keeps the wire -----

  lemma CrashKeepsHistory(w: World, g: Guest, t: Trouble)
    requires g.pc <= |g.script|
    ensures History(Crash(w, g, t)) == History(g)
  {
    var c := Crash(w, g, t);
    assert c.script[..0] == [] && History(g) + [] == History(g);
    assert g.script[..g.pc][..g.pc] == g.script[..g.pc];
  }

  lemma NextHistory(g: Guest)
    requires g.pc < |g.script|
    ensures History(g.Next()) == History(g) + if g.script[g.pc].Send? then [g.script[g.pc].body] else []
  {
    BodiesStep(g.script, g.pc);
  }

  lemma WireOnSend(w: World, s: Sys, t: Trouble)
    requires WireKept(w, s) && s.guest.Idle()
    requires s.guest.script[s.guest.pc].Send? && Fits(w, s.guest.script[s.guest.pc].body)
    ensures WireKept(w, Advance(w, s, t))
  {
    var g, n := s.guest, Advance(w, s, t);
    var b := g.script[g.pc].body;
    NextHistory(g);
    SameHistory(g.Next(), n.guest);
    JoinNext(w, History(g), b);
    AppendFour(Join(s.host.lines), s.host.buffer, s.up, Line(w.text(b)));
  }

  lemma SameHistory(g: Guest, h: Guest)
    requires g.pc == h.pc && g.script == h.script && g.before == h.before
    ensures History(g) == History(h)
  {}

  /** An instruction that sends nothing leaves the history and the queue to the coordinator alone. */
  lemma QuietAdvance(w: World, s: Sys, t: Trouble)
    requires s.guest.Idle()
    requires !(s.guest.script[s.guest.pc].Send? && Fits(w, s.guest.script[s.guest.pc].body))
    ensures var n := Advance(w, s, t);
      History(n.guest) == History(s.guest) && n.guest.outgoing == [] && n.up == s.up && n.host == s.host
  {
    var g, n := s.guest, Advance(w, s, t).guest;
    QuietShape(w, s, t);
    CrashKeepsHistory(w, g, t);
    if n != Crash(w, g, t) && n.pc == g.pc + 1 {
      NextHistory(g);
      SameHistory(g.Next(), n);
    }
  }

  /** Such an instruction crashes, waits or moves on. */
  lemma QuietShape(w: World, s: Sys, t: Trouble)
    requires s.guest.Idle()
    requires !(s.guest.script[s.guest.pc].Send? && Fits(w, s.guest.script[s.guest.pc].body))
    ensures var g, n := s.guest, Advance(w, s, t);
      && n.guest.outgoing == [] && n.up == s.up && n.host == s.host
      && (|| n.guest == Crash(w, g, t) || n.guest == g
          || (!g.script[g.pc].Send? && n.guest.pc == g.pc + 1 && n.guest.script == g.script
              && n.guest.before == g.before))
  {}

  lemma WireOnAdvance(w: World, s: Sys, t: Trouble)
    requires WireKept(w, s) && s.guest.Idle()
    ensures WireKept(w, Advance(w, s, t))
  {
    if s.guest.script[s.guest.pc].Send? && Fits(w, s.guest.script[s.guest.pc].body) {
      WireOnSend(w, s, t);
    } else {
      QuietAdvance(w, s, t);
    }
  }

  lemma AppendFour(a: seq<Byte>, b: seq<Byte>, c: seq<Byte>, d: seq<Byte>)
    ensures a + (b + (c + [])) + d == a + (b + (c + d))
  {}

  lemma AppendMove(a: seq<Byte>, b: seq<Byte>, c: seq<Byte>, d: seq<Byte>, n: nat)
    requires n <= |d|
    ensures a + (b + ((c + d[..n]) + d[n..])) == a + (b + (c + d))
  {
    assert (c + d[..n]) + d[n..] == c + d;
  }

  lemma WireOnWrite(w: World, s: Sys, n: nat)
    requires WireKept(w, s) && 0 < n <= |s.guest.outgoing|
    ensures WireKept(w, Apply(w, s, GuestWrite(n)))
  {
    var m := Apply(w, s, GuestWrite(n));
    AppendMove(Join(s.host.lines), s.host.buffer, s.up, s.guest.outgoing, n);
    assert History(m.guest) == History(s.guest);
  }

  lemma AppendTaken(a: seq<Byte>, b: seq<Byte>, up: seq<Byte>, out: seq<Byte>, n: nat, after: seq<Byte>,
                    lines: seq<Byte>, buffer: seq<Byte>)
    requires n <= |up| && after == a + b + up[..n] && after == lines + buffer
    ensures lines + (buffer + (up[n..] + out)) == a + (b + (up + out))
  {
    AppendAssociative(lines, buffer, up[n..] + out);
    assert a + b + up[..n] + (up[n..] + out) == a + (b + (up + out));
  }

  lemma WireOnRecv(w: World, s: Sys, n: nat)
    requires WireKept(w, s) && !s.host.Stopped() && n <= |s.up|
    ensures WireKept(w, Deliver(w, s, n)) && s.host.lines <= Deliver(w, s, n).host.lines
  {
    var taken := Join(s.host.lines) + s.host.buffer;
    PumpReceives(w, s.host, taken, s.up[..n]);
    var h := Pump(w, s.host, s.up[..n]);
    AppendTaken(Join(s.host.lines), s.host.buffer, s.up, s.guest.outgoing, n, taken + s.up[..n], Join(h.lines),
                h.buffer);
  }

  lemma WireOnAbort(w: World, s: Sys)
    requires WireKept(w, s)
    ensures WireKept(w, s.(host := s.host.(job := Raise(s.host.job))))
  {}

  // ----- Each step keeps the replies -----

  lemma HandleSent(w: World, j: Job, b: Body)
    ensures j.sent <= Handle(w, j, b).sent
  {}

  lemma {:induction false} DrainSent(w: World, e: Endpoint)
    ensures e.job.sent <= Drain(w, e).job.sent
    decreases |e.buffer|
  {
    if LF in e.buffer && !e.job.raised {
      var i := IndexOf(e.buffer, LF);
      var line := e.buffer[..i];
      if Authentic(w, line) {
        HandleSent(w, e.job, w.read(line).value.body);
      }
      DrainSent(w, Endpoint(e.buffer[i + 1..], Dispatch(w, e.job, line), e.lines + [line]));
    }
  }

  lemma PumpSent(w: World, e: Endpoint, chunk: seq<Byte>)
    ensures e.job.sent <= Pump(w, e, chunk).job.sent
  {
    DrainSent(w, e.(buffer := e.buffer + chunk));
  }

  lemma RepliesOnRecv(w: World, s: Sys, n: nat)
    requires RepliesKept(w, s) && n <= |s.up|
    ensures RepliesKept(w, Deliver(w, s, n))
  {
    PumpSent(w, s.host, s.up[..n]);
    var old', now := s.host.job.sent, Pump(w, s.host, s.up[..n]).job.sent;
    var taken := s.guest.taken;
    assert Replies(w, now[taken..]) == Replies(w, old'[taken..]) + Replies(w, now[|old'|..]);
    JoinAppend(Replies(w, old'[taken..]), Replies(w, now[|old'|..]));
  }

  /** The first line waiting for the guest is the first reply it has not read. */
  lemma FirstReply(w: World, s: Sys)
    requires Faithful(w) && RepliesKept(w, s) && LF in s.down
    ensures s.guest.taken < |s.host.job.sent|
    ensures var i := IndexOf(s.down, LF);
      && s.down[..i] == w.reply(s.host.job.sent[s.guest.taken])
      && s.down[i + 1..] == Join(Replies(w, s.host.job.sent[s.guest.taken + 1..]))
  {
    var rest := s.host.job.sent[s.guest.taken..];
    var lines := Replies(w, rest);
    if rest != [] {
      assert rest[1..] == s.host.job.sent[s.guest.taken + 1..];
      assert lines[1..] == Replies(w, rest[1..]);
      assert s.down == lines[0] + [LF] + Join(lines[1..]);
      FirstNewlineAt(lines[0], Join(lines[1..]));
    }
  }

  lemma FirstNewlineAt(line: seq<Byte>, rest: seq<Byte>)
    requires LF !in line
    ensures var s := line + [LF] + rest;
      LF in s && s[..IndexOf(s, LF)] == line && s[IndexOf(s, LF) + 1..] == rest
  {
    var s := line + [LF] + rest;
    assert s[|line|] == LF && forall j :: 0 <= j < |line| ==> s[j] == line[j];
    IndexOfUnique(s, LF, |line|);
  }

  // ----- What the coordinator has seen -----

  lemma TextsAreAuthentic(w: World, bodies: seq<Body>)
    requires Faithful(w) && AllSendable(bodies)
    ensures NewlineFree(Texts(w, bodies)) && AllAuthentic(w, Texts(w, bodies))
    ensures After(w, Texts(w, bodies)) == AfterBodies(w, bodies)
  {
    var lines := Texts(w, bodies);
    forall i | 0 <= i < |lines|
      ensures LF !in lines[i] && w.read(lines[i]) == Some(Message(w.binding.runId, w.binding.nonce, bodies[i]))
    {
      assert lines[i] == w.text(bodies[i]) && Sendable(bodies[i]);
    }
    assert Bodies(w, lines) == bodies;
    AuthenticLines(w, lines);
  }

  /** How many of the guest's messages the coordinator has handled. */
  function Seen(s: Sys): nat {
    |s.host.lines|
  }

  ghost predicate HistorySendable(s: Sys) {
    AllSendable(History(s.guest))
  }

  /** The coordinator has handled a front of the guest's history, and the rest is on its way. */
  lemma HostFollows(w: World, s: Sys)
    requires Faithful(w) && WireKept(w, s) && HistorySendable(s)
    ensures Seen(s) <= |History(s.guest)|
    ensures var hist, n := History(s.guest), Seen(s);
      && After(w, s.host.lines) == AfterBodies(w, hist[..n])
      && s.host.buffer + (s.up + s.guest.outgoing) == Join(Texts(w, hist[n..]))
  {
    var hist, n := History(s.guest), Seen(s);
    TextsAreAuthentic(w, hist);
    PrefixOfJoin(Texts(w, hist), s.host.lines, s.host.buffer + (s.up + s.guest.outgoing));
    assert s.host.lines == Texts(w, hist[..n]);
    assert Texts(w, hist)[n..] == Texts(w, hist[n..]);
    TextsAreAuthentic(w, hist[..n]);
  }

  /** The coordinator's state is the one its front of the history leads to, up to a last exception. */
  lemma JobIsSeen(w: World, s: Sys)
    requires Faithful(w) && WireKept(w, s) && HistorySendable(s)
    ensures Seen(s) <= |History(s.guest)|
    ensures var j := AfterBodies(w, History(s.guest)[..Seen(s)]);
      s.host.job == j || s.host.job == Raise(j)
  {
    HostFollows(w, s);
  }

  /** Replies answer messages: an admission for an observation, a shutdown for a completion claim. */
  lemma {:induction false} RepliesAnswer(w: World, bodies: seq<Body>)
    ensures multiset(AfterBodies(w, bodies).sent)[Admit] <= Readies(bodies)
    ensures Shutdown in AfterBodies(w, bodies).sent ==> exists b :: b in bodies && b.Complete?
    ensures Admit in AfterBodies(w, bodies).sent ==>
      && AfterBodies(w, bodies).report.guestReady.Some?
      && HostReady(AfterBodies(w, bodies).report.guestReady.value) in bodies
      && Admissible(w.binding, AfterBodies(w, bodies).report.guestReady.value)
    decreases |bodies|
  {
    if bodies != [] {
      var front, b := bodies[..|bodies| - 1], bodies[|bodies| - 1];
      RepliesAnswer(w, front);
      assert bodies == front + [b];
      AnswerStep(w, AfterBodies(w, front), b);
    }
  }

  lemma AnswerStep(w: World, j: Job, b: Body)
    ensures var h := Handle(w, j, b);
      && (h.sent == j.sent || (h.sent == j.sent + [Admit] && b.HostReady?)
          || (h.sent == j.sent + [Shutdown] && b.Complete?))
      && (h.report.guestReady == j.report.guestReady
          || (b.HostReady? && h.report.guestReady == Some(b.observation) && Admissible(w.binding, b.observation)))
      && (h.sent == j.sent + [Admit] ==> b.HostReady? && h.report.guestReady == Some(b.observation)
                                         && Admissible(w.binding, b.observation))
  {
    assert (j.sent + [Admit])[|j.sent|] == Admit && (j.sent + [Shutdown])[|j.sent|] == Shutdown;
  }

  lemma {:induction false} ReadiesAt(bodies: seq<Body>, a: nat)
    requires forall i :: 0 <= i < |bodies| && bodies[i].HostReady? ==> i == a
    ensures Readies(bodies) == if a < |bodies| && bodies[a].HostReady? then 1 else 0
    decreases |bodies|
  {
    if bodies != [] {
      ReadiesAt(bodies[..|bodies| - 1], a);
      if a >= |bodies| || !bodies[a].HostReady? {
        assert !bodies[|bodies| - 1].HostReady?;
      }
    }
  }
}
