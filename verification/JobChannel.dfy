/** The coordinator and the guest composed over two byte queues, under every schedule: writes and reads of
    any size, exceptions on either side, and replies that may or may not go out. */
module JobChannel {
  import opened Framing
  import opened Wrappers
  import opened HostJob
  import opened HostTranscript
  import opened GuestJob

  datatype Sys = Sys(host: Endpoint, guest: Guest, up: seq<Byte>, down: seq<Byte>)

  datatype Step =
    | GuestAdvance(trouble: Trouble)  // the next instruction; `trouble` is used if it raises
    | GuestCrash(trouble: Trouble)    // an exception between two instructions
    | GuestReadFails(trouble: Trouble)  // a read raises: the channel is lost, or what it reads is not accepted
    | GuestWrite(n: nat)
    | HostRecv(n: nat)
    | HostAbort                       // deadline, log bound or QEMU exit

  function Start(w: World, p: Plan): Sys {
    Sys(IDLE, Boot(w, p), [], [])
  }

  function Replies(w: World, replies: seq<Reply>): (lines: seq<seq<Byte>>)
    ensures |lines| == |replies| && forall i :: 0 <= i < |replies| ==> lines[i] == w.reply(replies[i])
  {
    seq(|replies|, i requires 0 <= i < |replies| => w.reply(replies[i]))
  }

  function Advance(w: World, s: Sys, t: Trouble): Sys
    requires s.guest.Idle()
  {
    var g := s.guest;
    match g.script[g.pc]
    case Send(b) =>
      if Fits(w, b) then s.(guest := g.Next().(outgoing := Line(w.text(b))))
      else s.(guest := Crash(w, g, t))
    case Check(ok) => s.(guest := if ok then g.Next() else Crash(w, g, t))
    case Receive(k) =>
      if LF !in s.down then s else
        var i := IndexOf(s.down, LF);
        var rest := s.down[i + 1..];
        if s.down[..i] == w.reply(k) then s.(guest := g.Next().(taken := g.taken + 1), down := rest)
        else s.(guest := Crash(w, g, t), down := rest)
  }

  function Deliver(w: World, s: Sys, n: nat): Sys
    requires n <= |s.up|
  {
    var host := Pump(w, s.host, s.up[..n]);
    var news := if |s.host.job.sent| <= |host.job.sent| then host.job.sent[|s.host.job.sent|..] else [];
    s.(host := host, up := s.up[n..], down := s.down + Join(Replies(w, news)))
  }

  predicate Enabled(s: Sys, step: Step) {
    match step
    case GuestAdvance(_) => s.guest.Idle() && (s.guest.script[s.guest.pc].Receive? ==> LF in s.down)
    case GuestCrash(_) => s.guest.Idle() && !s.guest.script[s.guest.pc].Receive?
    case GuestReadFails(_) => s.guest.Idle() && s.guest.script[s.guest.pc].Receive?
    case GuestWrite(n) => 0 < n <= |s.guest.outgoing|
    case HostRecv(n) => !s.host.Stopped() && 0 < n <= |s.up| && n <= READ_LIMIT
    case HostAbort => !s.host.Stopped()
  }

  /** A step that is not enabled does nothing. */
  function Apply(w: World, s: Sys, step: Step): Sys {
    if !Enabled(s, step) then s else
      match step
      case GuestAdvance(t) => Advance(w, s, t)
      case GuestCrash(t) => s.(guest := Crash(w, s.guest, t))
      case GuestReadFails(t) => s.(guest := Crash(w, s.guest, t))
      case GuestWrite(n) =>
        s.(guest := s.guest.(outgoing := s.guest.outgoing[n..]), up := s.up + s.guest.outgoing[..n])
      case HostRecv(n) => Deliver(w, s, n)
      case HostAbort => s.(host := s.host.(job := Raise(s.host.job)))
  }

  /** The state after a schedule. A state is reachable when some schedule leads to it. */
  function Exec(w: World, p: Plan, steps: seq<Step>): Sys {
    if steps == [] then Start(w, p)
    else Apply(w, Exec(w, p, steps[..|steps| - 1]), steps[|steps| - 1])
  }

  // ----- What the texts are assumed to be -----

  const NOTE_KINDS: set<string> :=
    {"boot", "progress", "heartbeat", "oci-completed", "diagnostic-write-failure"}

  /** How many paths the guest looks for that must not be there. */
  const FORBIDDEN_COUNT: nat := 5

  /** The messages the guest's code can send. */
  ghost predicate Sendable(b: Body) {
    && (b.Note? ==> b.kind in NOTE_KINDS)
    && (b.HostReady? ==> |b.observation.forbiddenPathPresent| == FORBIDDEN_COUNT)
  }

  /** Reading inverts writing, and no text contains a newline. */
  ghost predicate Faithful(w: World) {
    && (forall b {:trigger w.text(b)} :: Sendable(b) ==>
          LF !in w.text(b) && w.read(w.text(b)) == Some(Message(w.binding.runId, w.binding.nonce, b)))
    && (forall k {:trigger w.reply(k)} :: LF !in w.reply(k))
    && w.reply(Admit) != w.reply(Shutdown)
  }

  ghost predicate PlanOk(p: Plan) {
    && (forall b :: b in p.setup ==> b.Note? && Sendable(b))
    && (forall b :: b in p.matrix ==> b.Note? && Sendable(b))
    && Sendable(HostReady(p.observation))
  }

  // ----- The invariant -----

  /** No byte is lost, reordered or invented: what the coordinator took in, what is in flight and what is
      still to be written are together the lines of the guest's history. */
  ghost predicate WireKept(w: World, s: Sys) {
    && Received(w, s.host, Join(s.host.lines) + s.host.buffer)
    && Join(s.host.lines) + (s.host.buffer + (s.up + s.guest.outgoing)) == Join(Texts(w, History(s.guest)))
  }

  function Expected(i: nat): Reply {
    if i == 0 then Admit else Shutdown
  }

  /** The replies not yet read are in flight, and those read were the ones waited for, in order. */
  ghost predicate RepliesKept(w: World, s: Sys) {
    && s.guest.taken <= |s.host.job.sent| && s.guest.taken <= 2
    && (forall i :: 0 <= i < s.guest.taken ==> s.host.job.sent[i] == Expected(i))
    && s.down == Join(Replies(w, s.host.job.sent[s.guest.taken..]))
  }

  ghost predicate AllSendable(bodies: seq<Body>) {
    forall i :: 0 <= i < |bodies| ==> Sendable(bodies[i])
  }

  // ----- The guest follows its script -----

  /** The messages of the handler: never an observation, never a completion claim. */
  ghost predicate Aftermath(b: Body) {
    !b.HostReady? && !b.Complete? && Sendable(b)
  }

  /** What the guest has sent is the front of its main messages, then at most the handler's. */
  ghost predicate ScriptKept(w: World, p: Plan, g: Guest) {
    var main := MainScript(w, p);
    && g.pc <= |g.script| && g.mainDone <= |main| && g.taken == ReadsOf(main[..g.mainDone])
    && BodiesOf(main[..g.mainDone]) <= History(g)
    && (forall i :: 0 <= i < |History(g)| ==> Fits(w, History(g)[i]))
    && (forall i :: |BodiesOf(main[..g.mainDone])| <= i < |History(g)| ==> Aftermath(History(g)[i]))
    && (g.mode.Main? ==> g.script == main && g.pc == g.mainDone && g.before == [])
    && (!g.mode.Main? ==>
        && g.mainDone < |main|
        && forall i :: 0 <= i < |g.script| ==>
             !g.script[i].Receive? && (g.script[i].Send? ==> Aftermath(g.script[i].body)))
  }
}
